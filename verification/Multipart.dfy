/** The multipart/form-data parser, and printing by section 4 of RFC 7578 as its partner. Bytes are
    characters below 256. */
module Multipart {
  import opened Basics

  // ---------------------------------------------------------------- Python's string methods

  predicate Here(s: string, sep: string, i: nat) {
    i + |sep| <= |s| && forall k :: 0 <= k < |sep| ==> s[i + k] == sep[k]
  }

  /** The first place where `sep` stands, or the end. */
  function Find(s: string, sep: string, i: nat): (r: nat)
    requires i <= |s|
    ensures i <= r <= |s| && (r == |s| || Here(s, sep, r))
    decreases |s| - i
  {
    if i == |s| || Here(s, sep, i) then i else Find(s, sep, i + 1)
  }

  predicate Contains(s: string, sep: string) { exists i :: 0 <= i < |s| && Here(s, sep, i) }

  /** `s.split(sep)`. */
  function Split(s: string, sep: string): seq<string>
    requires sep != ""
    decreases |s|
  {
    var i := Find(s, sep, 0);
    if i == |s| then [s] else [s[..i]] + Split(s[i + |sep|..], sep)
  }

  /** What `s.partition(sep)` puts before and after the separator. */
  function Head(s: string, sep: string): string { s[..Find(s, sep, 0)] }

  function Tail(s: string, sep: string): string {
    var i := Find(s, sep, 0);
    if Here(s, sep, i) then s[i + |sep|..] else ""
  }

  function StripLeft(s: string, cs: set<char>): string {
    if s != "" && s[0] in cs then StripLeft(s[1..], cs) else s
  }

  function StripRight(s: string, cs: set<char>): string {
    if s != "" && s[|s| - 1] in cs then StripRight(s[..|s| - 1], cs) else s
  }

  /** `s.strip(chars)`. */
  function Strip(s: string, cs: set<char>): string { StripRight(StripLeft(s, cs), cs) }

  function Lower(s: string): string {
    seq(|s|, i requires 0 <= i < |s| => if 'A' <= s[i] <= 'Z' then 'a' + (s[i] - 'A') else s[i])
  }

  const BREAKS: set<char> := {'\r', '\n'}
  const QUOTE: set<char> := {'"'}
  const SPACES: set<char> := {' ', '\t', '\n', '\r', '\U{0B}', '\U{0C}', '\U{1C}', '\U{1D}', '\U{1E}', '\U{1F}',
    '\U{85}', '\U{A0}'}

  // ---------------------------------------------------------------- the parser

  datatype Value = Text(text: string) | File(filename: string, contentType: string, content: string)

  /** Dictionary assignment over the `key=value` chunks of a header; others are skipped. */
  function Params(chunks: seq<string>): map<string, string> {
    if chunks == [] then map[] else
    var rest, chunk := Params(chunks[..|chunks| - 1]), Strip(chunks[|chunks| - 1], SPACES);
    if !Contains(chunk, "=") then rest
    else rest[Lower(Strip(Head(chunk, "="), SPACES)) := Strip(Strip(Tail(chunk, "="), SPACES), QUOTE)]
  }

  /** The two headers that matter, later lines overriding earlier ones. */
  datatype Headers = Headers(disposition: string, contentType: string)

  function HeaderLine(h: Headers, line: string): Headers {
    var key := Lower(Strip(Head(line, ":"), SPACES));
    if key == "content-disposition" then h.(disposition := Strip(Tail(line, ":"), SPACES))
    else if key == "content-type" then h.(contentType := Strip(Tail(line, ":"), SPACES))
    else h
  }

  function ReadHeaders(lines: seq<string>): Headers {
    if lines == [] then Headers("", "text/plain") else HeaderLine(ReadHeaders(lines[..|lines| - 1]), lines[|lines| - 1])
  }

  /** What one piece between delimiters contributes: nothing, or a field and a value. */
  function ParsePiece(raw: string): Option<(string, Value)> {
    var part := Strip(raw, BREAKS);
    if part == "" || part == "--" then None else
    var h := ReadHeaders(Split(Head(part, "\r\n\r\n"), "\r\n"));
    var params := Params(Split(h.disposition, ";"));
    if "name" !in params then None else
    var content := Tail(part, "\r\n\r\n");
    Some((params["name"],
          if "filename" in params then File(params["filename"], h.contentType, content) else Text(content)))
  }

  function ParsePieces(pieces: seq<string>): seq<(string, Value)> {
    if pieces == [] then [] else
    var one := ParsePiece(pieces[0]);
    (if one.Some? then [one.value] else []) + ParsePieces(pieces[1..])
  }

  function Delimiter(boundary: string): string { "--" + boundary }

  /** `parse_multipart`, as the fields and values it finds, in order. */
  function Parse(body: string, boundary: string): seq<(string, Value)> {
    ParsePieces(Split(body, Delimiter(boundary)))
  }

  // ---------------------------------------------------------------- printing

  datatype Part = Part(name: string, file: Option<(string, Option<string>)>, content: string)

  function Header(key: string, value: string): string { key + (":" + (" " + value)) }

  /** A `key="text"` chunk. */
  function Quoted(key: string, text: string): string { key + ("=" + ("\"" + (text + "\""))) }

  function Disposition(p: Part): string {
    var named := " " + Quoted("name", p.name);
    "form-data" + (";" + if p.file.Some? then named + (";" + (" " + Quoted("filename", p.file.value.0))) else named)
  }

  function HeadOf(p: Part): string {
    var first := Header("Content-Disposition", Disposition(p));
    if p.file.Some? && p.file.value.1.Some? then
      first + ("\r\n" + Header("Content-Type", p.file.value.1.value))
    else
      first
  }

  function Piece(p: Part): string { "\r\n" + (HeadOf(p) + ("\r\n\r\n" + (p.content + "\r\n"))) }

  function Pieces(parts: seq<Part>): seq<string> {
    if parts == [] then ["--\r\n"] else [Piece(parts[0])] + Pieces(parts[1..])
  }

  function Join(pieces: seq<string>, sep: string): string {
    if pieces == [] then "" else if |pieces| == 1 then pieces[0] else pieces[0] + (sep + Join(pieces[1..], sep))
  }

  function Print(parts: seq<Part>, boundary: string): string { Join([""] + Pieces(parts), Delimiter(boundary)) }

  // ---------------------------------------------------------------- searching

  predicate Free(s: string, cs: set<char>) { forall i :: 0 <= i < |s| ==> s[i] !in cs }

  lemma {:induction false} FindIs(s: string, sep: string, i: nat, k: nat)
    requires i <= k <= |s| && (k == |s| || Here(s, sep, k)) && forall j :: i <= j < k ==> !Here(s, sep, j)
    ensures Find(s, sep, i) == k
    decreases k - i
  {
    if i < k { FindIs(s, sep, i + 1, k); }
  }

  /** `sep` has no place before the end of `a` in `a + sep`. */
  ghost predicate FirstAfter(a: string, sep: string) { forall j :: 0 <= j < |a| ==> !Here(a + sep, sep, j) }

  lemma NotHereEither(a: string, sep: string, rest: string, j: nat)
    requires j < |a| && !Here(a + sep, sep, j)
    ensures !Here(a + (sep + rest), sep, j)
  {
    var k :| 0 <= k < |sep| && (a + sep)[j + k] != sep[k];
    assert (a + (sep + rest))[j + k] == (a + sep)[j + k];
  }

  lemma SliceAfter(a: string, sep: string, rest: string)
    ensures var s := a + (sep + rest); Here(s, sep, |a|) && s[..|a|] == a && s[|a| + |sep|..] == rest
  {
  }

  lemma FoundAfter(a: string, sep: string, rest: string)
    requires FirstAfter(a, sep) && sep != ""
    ensures var s := a + (sep + rest);
      Find(s, sep, 0) == |a| && Here(s, sep, |a|) && s[..|a|] == a && s[|a| + |sep|..] == rest
  {
    hide Here;
    forall j | 0 <= j < |a| ensures !Here(a + (sep + rest), sep, j) {
      NotHereEither(a, sep, rest, j);
    }
    SliceAfter(a, sep, rest);
    FindIs(a + (sep + rest), sep, 0, |a|);
  }

  lemma NotFound(s: string, sep: string)
    requires !Contains(s, sep) && sep != ""
    ensures Find(s, sep, 0) == |s| && Split(s, sep) == [s] && Head(s, sep) == s && Tail(s, sep) == ""
  {
    FindIs(s, sep, 0, |s|);
  }

  lemma SplitOne(a: string, sep: string, rest: string)
    requires FirstAfter(a, sep) && sep != ""
    ensures Split(a + (sep + rest), sep) == [a] + Split(rest, sep)
    ensures Head(a + (sep + rest), sep) == a && Tail(a + (sep + rest), sep) == rest
  {
    hide Find;
    hide Here;
    hide FirstAfter;
    FoundAfter(a, sep, rest);
  }

  /** A piece that lacks the separator, and ends in a character the separator lacks, is found whole. */
  lemma EndsOutside(a: string, sep: string)
    requires !Contains(a, sep) && sep != "" && (a == "" || a[|a| - 1] !in sep)
    ensures FirstAfter(a, sep)
  {
    forall j | 0 <= j < |a| ensures !Here(a + sep, sep, j) {
      if j + |sep| <= |a| {
        assert !Here(a, sep, j);
        var k :| 0 <= k < |sep| && a[j + k] != sep[k];
        assert (a + sep)[j + k] == a[j + k];
      } else {
        var k := |a| - 1 - j;
        assert sep[k] in sep && (a + sep)[j + k] == a[|a| - 1];
      }
    }
  }

  lemma {:induction false} SplitJoin(pieces: seq<string>, sep: string)
    requires pieces != [] && sep != "" && !Contains(pieces[|pieces| - 1], sep)
    requires forall i :: 0 <= i < |pieces| - 1 ==> FirstAfter(pieces[i], sep)
    ensures Split(Join(pieces, sep), sep) == pieces
  {
    if |pieces| == 1 {
      NotFound(pieces[0], sep);
    } else {
      SplitJoin(pieces[1..], sep);
      SplitOne(pieces[0], sep, Join(pieces[1..], sep));
    }
  }

  // ---------------------------------------------------------------- stripping

  lemma {:induction false} StripRightAppend(s: string, t: string, cs: set<char>)
    ensures StripRight(s + t, cs) == if StripRight(t, cs) != "" then s + StripRight(t, cs) else StripRight(s, cs)
  {
    if t == "" {
      assert s + t == s;
    } else if t[|t| - 1] in cs {
      assert (s + t)[..|s + t| - 1] == s + t[..|t| - 1];
      StripRightAppend(s, t[..|t| - 1], cs);
    }
  }

  lemma {:induction false} StripLeftAll(t: string, s: string, cs: set<char>)
    requires forall i :: 0 <= i < |t| ==> t[i] in cs
    ensures StripLeft(t + s, cs) == StripLeft(s, cs)
  {
    if t == "" {
      assert t + s == s;
    } else {
      assert (t + s)[1..] == t[1..] + s;
      StripLeftAll(t[1..], s, cs);
    }
  }

  lemma {:induction false} StripRightAll(t: string, cs: set<char>)
    requires forall i :: 0 <= i < |t| ==> t[i] in cs
    ensures StripRight(t, cs) == ""
  {
    if t != "" { StripRightAll(t[..|t| - 1], cs); }
  }

  /** Only the outside goes: `before` and `after` are of characters to strip, `s` begins and ends otherwise. */
  lemma StripOutside(before: string, s: string, after: string, cs: set<char>)
    requires (forall i :: 0 <= i < |before| ==> before[i] in cs) && forall i :: 0 <= i < |after| ==> after[i] in cs
    requires s == "" || (s[0] !in cs && s[|s| - 1] !in cs)
    ensures Strip(before + (s + after), cs) == s
  {
    StripLeftAll(before, s + after, cs);
    StripRightAll(after, cs);
    if s == "" {
      assert s + after == after;
      StripLeftAll(after, "", cs);
      assert after + "" == after;
    } else {
      StripRightAppend(s, after, cs);
    }
  }

  lemma StripNothing(s: string, cs: set<char>)
    requires s == "" || (s[0] !in cs && s[|s| - 1] !in cs)
    ensures Strip(s, cs) == s
  {
  }

  /** A content as the parser returns it. */
  function Trimmed(content: string): string { StripRight(content, BREAKS) }

  /** A printed piece, stripped: the head, and after a blank line what is left of the content. */
  lemma PieceStripped(head: string, content: string)
    requires head != "" && head[0] !in BREAKS && head[|head| - 1] !in BREAKS
    ensures Strip("\r\n" + (head + ("\r\n\r\n" + (content + "\r\n"))), BREAKS) ==
      if Trimmed(content) != "" then head + ("\r\n\r\n" + Trimmed(content)) else head
  {
    var blank, tail := "\r\n\r\n", content + "\r\n";
    StripLeftAll("\r\n", head + (blank + tail), BREAKS);
    StripRightAll("\r\n", BREAKS);
    StripRightAll(blank, BREAKS);
    StripRightAppend(content, "\r\n", BREAKS);
    StripRightAppend(blank, tail, BREAKS);
    StripRightAppend(head, blank + tail, BREAKS);
  }

  // ---------------------------------------------------------------- the head of a printed part

  const MARKS: set<char> := {';', '"', '\r', '\n'}

  /** Names without semicolons, quotes or line breaks; a content type without breaks or outer spaces. */
  ghost predicate Printable(p: Part) {
    && Free(p.name, MARKS)
    && (p.file.Some? ==> Free(p.file.value.0, MARKS))
    && (p.file.Some? && p.file.value.1.Some? ==>
      Free(p.file.value.1.value, BREAKS) && Strip(p.file.value.1.value, SPACES) == p.file.value.1.value)
  }

  lemma HeaderParts(key: string, value: string)
    requires !Contains(key, ":") && Free(key, {':'})
    ensures Head(Header(key, value), ":") == key && Tail(Header(key, value), ":") == " " + value
  {
    EndsOutside(key, ":");
    SplitOne(key, ":", " " + value);
  }

  lemma ChunkParts(key: string, text: string)
    requires Free(key, {'='} + SPACES) && key != "" && Free(text, MARKS)
    ensures var chunk := Strip(" " + Quoted(key, text), SPACES);
      && Contains(chunk, "=") && Strip(Head(chunk, "="), SPACES) == key
      && Strip(Strip(Tail(chunk, "="), SPACES), QUOTE) == text
  {
    hide StripLeft;
    hide StripRight;
    hide Find;
    hide FirstAfter;
    var q := "\"" + (text + "\"");
    ChunkStrips(key, text);
    assert !Contains(key, "=") by {
      forall i | 0 <= i < |key| ensures !Here(key, "=", i) { assert "="[0] == '='; }
    }
    EndsOutside(key, "=");
    SplitOne(key, "=", q);
    assert Here(Quoted(key, text), "=", |key|);
    StripNothing(q, SPACES);
    assert text == "" || (text[0] !in QUOTE && text[|text| - 1] !in QUOTE);
    StripOutside("\"", text, "\"", QUOTE);
  }

  lemma ChunkStrips(key: string, text: string)
    requires Free(key, {'='} + SPACES) && key != ""
    ensures Strip(" " + Quoted(key, text), SPACES) == Quoted(key, text) && Strip(key, SPACES) == key
  {
    var chunk := Quoted(key, text);
    assert " " + chunk == " " + (chunk + "");
    assert chunk[0] == key[0] && chunk[|chunk| - 1] == '"';
    StripOutside(" ", chunk, "", SPACES);
    StripNothing(key, SPACES);
  }

  lemma NoPlace(s: string, sep: string)
    requires sep != "" && sep[0] !in s
    ensures !Contains(s, sep)
  {
    forall i | 0 <= i < |s| ensures !Here(s, sep, i) {
      assert s[i] in s && s[i + 0] != sep[0];
    }
  }

  lemma FreeHasNot(s: string, cs: set<char>, c: char)
    requires Free(s, cs) && c in cs
    ensures c !in s
  {
  }

  /** The chunks of a printed disposition. */
  function Chunks(p: Part): seq<string> {
    ["form-data", " " + Quoted("name", p.name)] +
    if p.file.Some? then [" " + Quoted("filename", p.file.value.0)] else []
  }

  lemma QuotedHasNo(key: string, text: string, c: char)
    requires c !in key && c !in text && c != '=' && c != '"' && c != ' '
    ensures c !in " " + Quoted(key, text)
  {
  }

  lemma DispositionSplits(p: Part)
    requires Printable(p)
    ensures Split(Disposition(p), ";") == Chunks(p)
  {
    hide Quoted;
    hide Split;
    var named := " " + Quoted("name", p.name);
    QuotedHasNo("name", p.name, ';');
    NoPlace(named, ";");
    NoPlace("form-data", ";");
    EndsOutside("form-data", ";");
    if p.file.Some? {
      var filed := " " + Quoted("filename", p.file.value.0);
      QuotedHasNo("filename", p.file.value.0, ';');
      NoPlace(filed, ";");
      EndsOutside(named, ";");
      SplitOne("form-data", ";", named + (";" + filed));
      SplitOne(named, ";", filed);
      NotFound(filed, ";");
      assert ["form-data"] + ([named] + [filed]) == Chunks(p);
    } else {
      SplitOne("form-data", ";", named);
      NotFound(named, ";");
      assert ["form-data"] + [named] == Chunks(p);
    }
  }

  lemma ParamsAdd(chunks: seq<string>, key: string, text: string)
    requires Free(key, {'='} + SPACES) && key != "" && Free(text, MARKS) && Lower(key) == key
    ensures Params(chunks + [" " + Quoted(key, text)]) == Params(chunks)[key := text]
  {
    hide Strip;
    hide Contains;
    hide Head;
    hide Tail;
    var all := chunks + [" " + Quoted(key, text)];
    assert all[..|all| - 1] == chunks && all[|all| - 1] == " " + Quoted(key, text);
    ChunkParts(key, text);
  }

  lemma FormDataAlone()
    ensures Params(["form-data"]) == map[]
  {
    NoPlace("form-data", "=");
    assert ["form-data"][..0] == [];
    StripNothing("form-data", SPACES);
  }

  lemma ParamNames()
    ensures Free("name", {'='} + SPACES) && Lower("name") == "name"
    ensures Free("filename", {'='} + SPACES) && Lower("filename") == "filename"
  {
  }

  /** The parameters a printed disposition gives back. */
  lemma ParamsBack(p: Part)
    requires Printable(p)
    ensures Params(Chunks(p)) ==
      (if p.file.Some? then map["name" := p.name, "filename" := p.file.value.0] else map["name" := p.name])
  {
    FormDataAlone();
    ParamNames();
    hide Lower;
    hide Free;
    hide Params;
    hide Quoted;
    hide Strip;
    hide Contains;
    ParamsAdd(["form-data"], "name", p.name);
    var two := ["form-data", " " + Quoted("name", p.name)];
    assert two == ["form-data"] + [" " + Quoted("name", p.name)];
    if p.file.Some? {
      ParamsAdd(two, "filename", p.file.value.0);
      assert Chunks(p) == two + [" " + Quoted("filename", p.file.value.0)];
    } else {
      assert Chunks(p) == two;
    }
  }

  /** One printed header line gives its value back. */
  lemma LineBack(h: Headers, key: string, value: string)
    requires Free(key, {':'} + SPACES) && key != "" && Strip(" " + value, SPACES) == value
    ensures HeaderLine(h, Header(key, value)) ==
      if Lower(key) == "content-disposition" then h.(disposition := value)
      else if Lower(key) == "content-type" then h.(contentType := value) else h
  {
    NoPlace(key, ":");
    HeaderParts(key, value);
    StripNothing(key, SPACES);
  }

  lemma DispositionStrips(p: Part)
    ensures Strip(" " + Disposition(p), SPACES) == Disposition(p)
  {
    var d := Disposition(p);
    assert d[0] == 'f' && d[|d| - 1] == '"';
    assert " " + d == " " + (d + "");
    StripOutside(" ", d, "", SPACES);
  }

  lemma {:induction false} StripStripped(s: string)
    requires Strip(s, SPACES) == s
    ensures Strip(" " + s, SPACES) == s
  {
    assert (" " + s)[1..] == s;
  }

  lemma KeysLower()
    ensures Lower("Content-Disposition") == "content-disposition" && Lower("Content-Type") == "content-type"
  {
  }

  /** Neither line of a printed head holds a line break. */
  lemma LinesUnbroken(p: Part)
    requires Printable(p)
    ensures Free(Header("Content-Disposition", Disposition(p)), BREAKS) &&
      Header("Content-Disposition", Disposition(p)) != ""
    ensures p.file.Some? && p.file.value.1.Some? ==>
      Free(Header("Content-Type", p.file.value.1.value), BREAKS) && Header("Content-Type", p.file.value.1.value) != ""
  {
    QuotedFree("name", p.name);
    if p.file.Some? { QuotedFree("filename", p.file.value.0); }
  }

  lemma QuotedFree(key: string, text: string)
    requires Free(key, BREAKS) && Free(text, MARKS)
    ensures Free(Quoted(key, text), BREAKS)
  {
  }

  lemma UnbrokenLine(line: string)
    requires Free(line, BREAKS) && line != ""
    ensures !Contains(line, "\r\n") && FirstAfter(line, "\r\n")
  {
    FreeHasNot(line, BREAKS, '\r');
    FreeHasNot(line, BREAKS, '\n');
    NoPlace(line, "\r\n");
    assert line[|line| - 1] in line;
    EndsOutside(line, "\r\n");
  }

  /** The header lines of a printed part. */
  function Lines(p: Part): seq<string> {
    [Header("Content-Disposition", Disposition(p))]
      + if p.file.Some? && p.file.value.1.Some? then [Header("Content-Type", p.file.value.1.value)] else []
  }

  lemma HeadSplits(p: Part)
    requires Printable(p)
    ensures Split(HeadOf(p), "\r\n") == Lines(p)
  {
    hide Disposition;
    hide Header;
    hide Split;
    hide FirstAfter;
    hide Contains;
    var first := Header("Content-Disposition", Disposition(p));
    LinesUnbroken(p);
    UnbrokenLine(first);
    if p.file.Some? && p.file.value.1.Some? {
      var second := Header("Content-Type", p.file.value.1.value);
      UnbrokenLine(second);
      SplitOne(first, "\r\n", second);
      NotFound(second, "\r\n");
    } else {
      NotFound(first, "\r\n");
    }
  }

  lemma ReadLines(a: string, b: string)
    ensures ReadHeaders([a]) == HeaderLine(Headers("", "text/plain"), a)
    ensures ReadHeaders([a] + [b]) == HeaderLine(ReadHeaders([a]), b)
  {
    assert [a][..0] == [] && ([a] + [b])[..1] == [a];
  }

  /** The headers of a printed head. */
  lemma HeadersBack(p: Part)
    requires Printable(p)
    ensures ReadHeaders(Lines(p)) ==
      Headers(Disposition(p), if p.file.Some? && p.file.value.1.Some? then p.file.value.1.value else "text/plain")
  {
    hide HeaderLine;
    hide ReadHeaders;
    hide Disposition;
    hide Header;
    hide Strip;
    var first := Header("Content-Disposition", Disposition(p));
    DispositionStrips(p);
    KeysLower();
    LineBack(Headers("", "text/plain"), "Content-Disposition", Disposition(p));
    ReadLines(first, "");
    if p.file.Some? && p.file.value.1.Some? {
      StripStripped(p.file.value.1.value);
      LineBack(ReadHeaders([first]), "Content-Type", p.file.value.1.value);
      ReadLines(first, Header("Content-Type", p.file.value.1.value));
    } else {
      assert Lines(p) == [first];
    }
  }

  /** The blank line after a printed head is the first one in the piece. */
  lemma BlankAfterHead(p: Part)
    requires Printable(p)
    ensures FirstAfter(HeadOf(p), "\r\n\r\n") && !Contains(HeadOf(p), "\r\n\r\n")
    ensures HeadOf(p) != "" && HeadOf(p)[0] == 'C' && HeadOf(p)[|HeadOf(p)| - 1] !in BREAKS
  {
    var first := Header("Content-Disposition", Disposition(p));
    LinesUnbroken(p);
    if p.file.Some? && p.file.value.1.Some? {
      TwoLines(first, Header("Content-Type", p.file.value.1.value));
    } else {
      FreeHasNot(first, BREAKS, '\r');
      NoPlace(first, "\r\n\r\n");
    }
    EndsOutside(HeadOf(p), "\r\n\r\n");
  }

  lemma TwoLines(a: string, b: string)
    requires Free(a, BREAKS) && Free(b, BREAKS) && b != ""
    ensures !Contains(a + ("\r\n" + b), "\r\n\r\n")
  {
    var s, blank := a + ("\r\n" + b), "\r\n\r\n";
    forall i | 0 <= i < |s| ensures !Here(s, blank, i) {
      if i < |a| {
        assert s[i + 0] == a[i] && blank[0] == '\r';
      } else if i == |a| && i + 4 <= |s| {
        assert s[i + 2] == b[0] && blank[2] == '\r';
      } else if i == |a| + 1 {
        assert s[i + 0] == '\n' && blank[0] == '\r';
      } else if i > |a| + 1 {
        assert s[i + 0] == b[i - |a| - 2] && blank[0] == '\r';
      }
    }
  }

  // ---------------------------------------------------------------- the round trip

  /** What a printed part reads back as: its content loses trailing line breaks. */
  function ReadBack(p: Part): (string, Value) {
    (p.name, if p.file.Some?
             then File(p.file.value.0, if p.file.value.1.Some? then p.file.value.1.value
               else "text/plain", Trimmed(p.content))
             else Text(Trimmed(p.content)))
  }

  lemma PieceBack(p: Part)
    requires Printable(p)
    ensures ParsePiece(Piece(p)) == Some(ReadBack(p))
  {
    hide Params;
    hide ReadHeaders;
    hide Split;
    hide Strip;
    hide Find;
    hide Contains;
    hide FirstAfter;
    hide HeadOf;
    hide Disposition;
    hide Trimmed;
    var head := HeadOf(p);
    BlankAfterHead(p);
    HeadSplits(p);
    HeadersBack(p);
    DispositionSplits(p);
    ParamsBack(p);
    PieceStripped(head, p.content);
    if Trimmed(p.content) != "" {
      SplitOne(head, "\r\n\r\n", Trimmed(p.content));
    } else {
      NotFound(head, "\r\n\r\n");
    }
  }

  lemma DelimiterApart(parts: seq<Part>, boundary: string)
    requires boundary != "" && Free(boundary, BREAKS) && forall p :: p in parts ==>
      !Contains(Piece(p), Delimiter(boundary))
    ensures var pieces := [""] + Pieces(parts); var sep := Delimiter(boundary);
      && !Contains(pieces[|pieces| - 1], sep) && forall i :: 0 <= i < |pieces| - 1 ==> FirstAfter(pieces[i], sep)
  {
    hide Piece;
    var pieces, sep := [""] + Pieces(parts), Delimiter(boundary);
    PiecesAre(parts);
    forall i | 0 <= i < |"--\r\n"| ensures !Here("--\r\n", sep, i) {
      if i == 0 { assert sep[2] == boundary[0] && "--\r\n"[2] == '\r'; }
      if i == 1 { assert sep[1] == '-' && "--\r\n"[2] == '\r'; }
    }
    forall i | 0 <= i < |pieces| - 1 ensures FirstAfter(pieces[i], sep) {
      if i > 0 {
        assert pieces[i] == Piece(parts[i - 1]) && parts[i - 1] in parts;
        PieceEnds(parts[i - 1]);
        EndsOutside(pieces[i], sep);
      }
    }
  }

  lemma PieceEnds(p: Part)
    ensures Piece(p) != "" && Piece(p)[|Piece(p)| - 1] == '\n'
  {
  }

  lemma {:induction false} PiecesAre(parts: seq<Part>)
    ensures |Pieces(parts)| == |parts| + 1 && Pieces(parts)[|parts|] == "--\r\n"
    ensures forall i :: 0 <= i < |parts| ==> Pieces(parts)[i] == Piece(parts[i])
  {
    if parts != [] { PiecesAre(parts[1..]); }
  }

  function ReadBackAll(parts: seq<Part>): seq<(string, Value)> {
    seq(|parts|, i requires 0 <= i < |parts| => ReadBack(parts[i]))
  }

  lemma ClosingIsNothing()
    ensures ParsePiece("--\r\n").None? && ParsePiece("").None?
  {
    assert "--\r\n" == "" + ("--" + "\r\n");
    StripOutside("", "--", "\r\n", BREAKS);
  }

  lemma {:induction false} PiecesBack(parts: seq<Part>)
    requires forall p :: p in parts ==> Printable(p)
    ensures ParsePieces(Pieces(parts)) == ReadBackAll(parts)
  {
    hide ParsePiece;
    hide Piece;
    hide ReadBack;
    ClosingIsNothing();
    if parts == [] {
      assert ["--\r\n"][1..] == [];
    } else {
      assert parts[0] in parts;
      PieceBack(parts[0]);
      PiecesBack(parts[1..]);
      assert Pieces(parts)[1..] == Pieces(parts[1..]);
      assert ReadBackAll(parts) == [ReadBack(parts[0])] + ReadBackAll(parts[1..]);
    }
  }

  /** Main result: printing fields and files and parsing them gives back the same names, filenames and
      types in order, and every content without its trailing line breaks. */
  lemma ParsePrint(parts: seq<Part>, boundary: string)
    requires boundary != "" && Free(boundary, BREAKS)
    requires forall p :: p in parts ==> Printable(p) && !Contains(Piece(p), Delimiter(boundary))
    ensures Parse(Print(parts, boundary), boundary) == ReadBackAll(parts)
  {
    hide ParsePiece;
    hide Piece;
    hide Split;
    var pieces, sep := [""] + Pieces(parts), Delimiter(boundary);
    DelimiterApart(parts, boundary);
    SplitJoin(pieces, sep);
    ClosingIsNothing();
    PiecesBack(parts);
    assert pieces[1..] == Pieces(parts);
  }

  /** A part as it was printed, the content kept whole. */
  function Sent(p: Part): (string, Value) {
    (p.name, if p.file.Some?
             then File(p.file.value.0, if p.file.value.1.Some? then p.file.value.1.value else "text/plain", p.content)
             else Text(p.content))
  }

  lemma {:induction false} TrimmedExactly(content: string)
    ensures Trimmed(content) == content <==> content == "" || content[|content| - 1] !in BREAKS
    ensures |Trimmed(content)| <= |content|
  {
    if content != "" && content[|content| - 1] in BREAKS { TrimmedExactly(content[..|content| - 1]); }
  }

  /** A part survives the round trip exactly when its content does not end in CR or LF. */
  lemma RoundTripExactlyWhen(p: Part)
    requires Printable(p)
    ensures ParsePiece(Piece(p)) == Some(Sent(p)) <==> p.content == "" || p.content[|p.content| - 1] !in BREAKS
  {
    hide ParsePiece;
    hide Piece;
    PieceBack(p);
    TrimmedExactly(p.content);
  }

  /** For one, a content ending in a line break is read as the content without it. */
  lemma TrailingBreakLost()
    ensures var p := Part("f", None, "x\n");
      Printable(p) && ParsePiece(Piece(p)) == ParsePiece(Piece(p.(content := "x"))) &&
        ParsePiece(Piece(p)) != Some(Sent(p))
  {
    var p := Part("f", None, "x\n");
    hide ParsePiece;
    hide Piece;
    PieceBack(p);
    PieceBack(p.(content := "x"));
    RoundTripExactlyWhen(p);
    assert Trimmed("x\n") == "x" == Trimmed("x");
  }
}
