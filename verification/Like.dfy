/** LIKE patterns: escaping user text, building a pattern, and SQL's LIKE ... ESCAPE predicate. */
module Like {

  const ESCAPE: char := '\\'

  // ---------------------------------------------------------------- the code

  /** `str.replace` for a one-character target. */
  function Replace(s: string, target: char, with: string): string {
    if s == "" then "" else (if s[0] == target then with else [s[0]]) + Replace(s[1..], target, with)
  }

  /** Three successive replaces: the escape character first, then the two wildcards. */
  function LikeEscape(value: string): string {
    Replace(Replace(Replace(value, ESCAPE, [ESCAPE, ESCAPE]), '%', [ESCAPE, '%']), '_', [ESCAPE, '_'])
  }

  datatype Shape = Contains | StartsWith | EndsWith

  /** `pattern.format(v=escaped)` for the three pattern strings. */
  function Pattern(shape: Shape, escaped: string): string {
    match shape
    case Contains => "%" + escaped + "%"
    case StartsWith => escaped + "%"
    case EndsWith => "%" + escaped
  }

  /** `_like`'s bound parameter; `lower` is the per-character lowering of the case-insensitive form. */
  function LikeParam(shape: Shape, value: string, ci: bool, lower: char -> char): string {
    var param := Pattern(shape, LikeEscape(value));
    if ci then Lowered(param, lower) else param
  }

  function Lowered(s: string, lower: char -> char): string {
    seq(|s|, i requires 0 <= i < |s| => lower(s[i]))
  }

  // ---------------------------------------------------------------- SQL (ISO/IEC 9075:1992, 8.5)

  /** The LIKE predicate with ESCAPE. An escape character must be followed by itself or a wildcard;
      a pattern that breaks this matches nothing here. */
  predicate Matches(pattern: string, s: string)
    decreases |pattern|, |s|
  {
    if pattern == "" then s == ""
    else if pattern[0] == ESCAPE then
      |pattern| >= 2 && pattern[1] in {ESCAPE, '%', '_'} && s != "" && s[0] == pattern[1] &&
        Matches(pattern[2..], s[1..])
    else if pattern[0] == '%' then
      Matches(pattern[1..], s) || (s != "" && Matches(pattern, s[1..]))
    else if pattern[0] == '_' then
      s != "" && Matches(pattern[1..], s[1..])
    else
      s != "" && s[0] == pattern[0] && Matches(pattern[1..], s[1..])
  }

  // ---------------------------------------------------------------- what is promised

  ghost predicate Occurs(shape: Shape, v: string, s: string) {
    match shape
    case Contains => exists i :: 0 <= i <= |s| && v <= s[i..]
    case StartsWith => v <= s
    case EndsWith => |v| <= |s| && s[|s| - |v|..] == v
  }

  function EscapeChar(c: char): string {
    if c in {ESCAPE, '%', '_'} then [ESCAPE, c] else [c]
  }

  /** One pass over the text, each special character escaped on its own. */
  function EscapeEach(value: string): string {
    if value == "" then "" else EscapeChar(value[0]) + EscapeEach(value[1..])
  }

  /** Lowering that leaves the special characters alone and produces no new ones. */
  ghost predicate KeepsSpecials(lower: char -> char) {
    forall c :: (lower(c) in {ESCAPE, '%', '_'} <==> c in {ESCAPE, '%', '_'})
      && (c in {ESCAPE, '%', '_'} ==> lower(c) == c)
  }

  // ---------------------------------------------------------------- proofs

  lemma {:induction false} ReplaceAppend(a: string, b: string, target: char, with: string)
    ensures Replace(a + b, target, with) == Replace(a, target, with) + Replace(b, target, with)
  {
    if a == "" {
      assert a + b == b;
    } else {
      var first := if a[0] == target then with else [a[0]];
      var r, q := Replace(a[1..], target, with), Replace(b, target, with);
      ReplaceAppend(a[1..], b, target, with);
      assert (a + b)[1..] == a[1..] + b && (a + b)[0] == a[0];
      assert Replace(a + b, target, with) == first + (r + q);
      assert first + (r + q) == (first + r) + q;
    }
  }

  /** The order of the three replaces is right: no escape that one adds is touched by the next. */
  lemma {:induction false} ReplacesEscapeEachCharacter(value: string)
    ensures LikeEscape(value) == EscapeEach(value)
  {
    if value != "" {
      var c, rest := value[0], value[1..];
      ReplacesEscapeEachCharacter(rest);
      var one := if c == ESCAPE then [ESCAPE, ESCAPE] else [c];
      var rest1 := Replace(rest, ESCAPE, [ESCAPE, ESCAPE]);
      var two := if c == '%' then [ESCAPE, '%'] else one;
      var rest2 := Replace(rest1, '%', [ESCAPE, '%']);
      assert Replace(value, ESCAPE, [ESCAPE, ESCAPE]) == one + rest1;
      ReplaceAppend(one, rest1, '%', [ESCAPE, '%']);
      assert one[1..] == if c == ESCAPE then [ESCAPE] else [];
      assert Replace(one, '%', [ESCAPE, '%']) == two;
      ReplaceAppend(two, rest2, '_', [ESCAPE, '_']);
      assert two[1..] == if c == ESCAPE then [ESCAPE] else if c == '%' then ['%'] else [];
      assert Replace(two, '_', [ESCAPE, '_']) == EscapeChar(c);
    }
  }

  /** Escaped text in front of a pattern matches literally. */
  lemma {:induction false} EscapedTextIsLiteral(v: string, tail: string, s: string)
    ensures Matches(EscapeEach(v) + tail, s) <==> v <= s && Matches(tail, s[|v|..])
  {
    if v == "" {
      assert EscapeEach(v) + tail == tail && s[0..] == s;
    } else {
      var rest := EscapeEach(v[1..]) + tail;
      assert EscapeEach(v) + tail == EscapeChar(v[0]) + rest;
      if s != "" {
        EscapedTextIsLiteral(v[1..], tail, s[1..]);
        assert v <= s <==> s[0] == v[0] && v[1..] <= s[1..] by {
          assert v == [v[0]] + v[1..] && s == [s[0]] + s[1..];
        }
        if v <= s { assert s[1..][|v| - 1..] == s[|v|..]; }
      }
    }
  }

  lemma PercentUnfolds(tail: string, s: string)
    ensures Matches("%" + tail, s) <==> Matches(tail, s) || (s != "" && Matches("%" + tail, s[1..]))
  {
    var p := "%" + tail;
    assert p[0] == '%' && p[1..] == tail;
  }

  lemma {:induction false} PercentFinds(tail: string, s: string, i: nat)
    requires i <= |s| && Matches(tail, s[i..])
    ensures Matches("%" + tail, s)
    decreases i
  {
    hide Matches;
    PercentUnfolds(tail, s);
    if i == 0 {
      assert s[0..] == s;
    } else {
      assert s[1..][i - 1..] == s[i..];
      PercentFinds(tail, s[1..], i - 1);
    }
  }

  lemma {:induction false} PercentFound(tail: string, s: string) returns (i: nat)
    requires Matches("%" + tail, s)
    ensures i <= |s| && Matches(tail, s[i..])
    decreases |s|
  {
    hide Matches;
    PercentUnfolds(tail, s);
    if Matches(tail, s) {
      i := 0;
      assert s[0..] == s;
    } else {
      var k := PercentFound(tail, s[1..]);
      i := k + 1;
      assert s[1..][k..] == s[i..];
    }
  }

  /** A leading `%` skips any prefix. */
  lemma PercentSkips(tail: string, s: string)
    ensures Matches("%" + tail, s) <==> exists i :: 0 <= i <= |s| && Matches(tail, s[i..])
  {
    hide Matches;
    if Matches("%" + tail, s) { var _ := PercentFound(tail, s); }
    if exists i :: 0 <= i <= |s| && Matches(tail, s[i..]) {
      var i :| 0 <= i <= |s| && Matches(tail, s[i..]);
      PercentFinds(tail, s, i);
    }
  }

  lemma PercentMatchesAll(s: string)
    ensures Matches("%", s)
  {
    PercentSkips("", s);
    assert "%" + "" == "%" && s[|s|..] == "";
  }

  /** The pattern of an escaped value accepts exactly the strings that contain, start with or end
      with the value. */
  lemma {:induction false} EscapedPatternMeansOccurs(shape: Shape, v: string, s: string)
    ensures Matches(Pattern(shape, LikeEscape(v)), s) <==> Occurs(shape, v, s)
  {
    ReplacesEscapeEachCharacter(v);
    var e := EscapeEach(v);
    match shape
    case StartsWith =>
      EscapedTextIsLiteral(v, "%", s);
      if v <= s { PercentMatchesAll(s[|v|..]); }
    case EndsWith =>
      PercentSkips(e, s);
      assert e + "" == e;
      forall i | 0 <= i <= |s|
        ensures Matches(e, s[i..]) <==> i == |s| - |v| && s[i..] == v
      {
        EscapedTextIsLiteral(v, "", s[i..]);
      }
    case Contains =>
      assert "%" + e + "%" == "%" + (e + "%");
      PercentSkips(e + "%", s);
      forall i | 0 <= i <= |s|
        ensures Matches(e + "%", s[i..]) <==> v <= s[i..]
      {
        EscapedTextIsLiteral(v, "%", s[i..]);
        if v <= s[i..] { PercentMatchesAll(s[i..][|v|..]); }
      }
  }

  lemma LoweredAppend(a: string, b: string, lower: char -> char)
    ensures Lowered(a + b, lower) == Lowered(a, lower) + Lowered(b, lower)
  {
  }

  lemma {:induction false} LoweringCommutesWithEscaping(v: string, lower: char -> char)
    requires KeepsSpecials(lower)
    ensures Lowered(EscapeEach(v), lower) == EscapeEach(Lowered(v, lower))
  {
    if v != "" {
      LoweringCommutesWithEscaping(v[1..], lower);
      LoweredAppend(EscapeChar(v[0]), EscapeEach(v[1..]), lower);
      assert Lowered(v, lower)[1..] == Lowered(v[1..], lower);
      assert Lowered(EscapeChar(v[0]), lower) == EscapeChar(lower(v[0]));
    }
  }

  /** Lowering the finished pattern is the pattern of the lowered value. */
  lemma LoweredParam(shape: Shape, v: string, lower: char -> char)
    requires KeepsSpecials(lower)
    ensures LikeParam(shape, v, true, lower) == Pattern(shape, LikeEscape(Lowered(v, lower)))
  {
    var e := LikeEscape(v);
    ReplacesEscapeEachCharacter(v);
    ReplacesEscapeEachCharacter(Lowered(v, lower));
    LoweringCommutesWithEscaping(v, lower);
    assert Lowered("%", lower) == "%";
    LoweredAppend("%", e, lower);
    LoweredAppend("%" + e, "%", lower);
    LoweredAppend(e, "%", lower);
  }

  /** What `_like` binds: the plain form looks for the value, the case-insensitive form for the
      lowered value, in whatever text the column side of the predicate yields. */
  lemma LikeParamMeansOccurs(shape: Shape, v: string, s: string, ci: bool, lower: char -> char)
    requires ci ==> KeepsSpecials(lower)
    ensures Matches(LikeParam(shape, v, ci, lower), s) <==> Occurs(shape, if ci then Lowered(v, lower) else v, s)
  {
    if ci { LoweredParam(shape, v, lower); }
    EscapedPatternMeansOccurs(shape, if ci then Lowered(v, lower) else v, s);
  }

  // ---------------------------------------------------------------- two lowerings

  /** The parameter is lowered by Python and the column by the database. Where both lower the text's
      characters alike, case is ignored. */
  lemma CaseIgnored(shape: Shape, v: string, s: string, client: char -> char, server: char -> char)
    requires KeepsSpecials(client) && forall c :: c in s ==> client(c) == server(c)
    ensures Matches(LikeParam(shape, v, true, client), Lowered(s, server)) <==>
      Occurs(shape, Lowered(v, client), Lowered(s, client))
  {
    LikeParamMeansOccurs(shape, v, Lowered(s, server), true, client);
    assert Lowered(s, server) == Lowered(s, client);
  }

  /** A text is found by its own value if and only if both lower its characters alike. */
  lemma FindsItselfExactlyWhen(shape: Shape, v: string, client: char -> char, server: char -> char)
    requires KeepsSpecials(client)
    ensures Matches(LikeParam(shape, v, true, client), Lowered(v, server)) <==>
      forall c :: c in v ==> client(c) == server(c)
  {
    var a, b := Lowered(v, client), Lowered(v, server);
    LikeParamMeansOccurs(shape, v, b, true, client);
    if a == b {
      forall c | c in v ensures client(c) == server(c) {
        var i :| 0 <= i < |v| && v[i] == c;
        assert a[i] == b[i];
      }
      assert a <= b[0..];
    }
    if Occurs(shape, a, b) {
      match shape
      case Contains =>
        var i :| 0 <= i <= |b| && a <= b[i..];
        assert i == 0 && b[0..] == b;
      case _ =>
    }
  }

  /** For one, a capital E with an acute accent is not found where LOWER leaves it as it is. */
  lemma CapitalMissed(shape: Shape)
    ensures var text := "\U{C9}";
      var client := (c: char) => if c == '\U{C9}' then '\U{E9}' else c; var server := (c: char) => c;
      !Matches(LikeParam(shape, text, true, client), Lowered(text, server))
  {
    var text := "\U{C9}";
    var client := (c: char) => if c == '\U{C9}' then '\U{E9}' else c;
    var server := (c: char) => c;
    FindsItselfExactlyWhen(shape, text, client, server);
    assert text[0] in text && client(text[0]) != server(text[0]);
  }
}
