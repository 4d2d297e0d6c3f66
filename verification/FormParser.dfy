/** `parse_multipart` as it runs: loops over pieces, header lines and parameters that fill dictionaries. */
module FormParser {
  import opened Multipart

  /** The form: for each field its values, in order. */
  function Collect(found: seq<(string, Value)>): map<string, seq<Value>> {
    if found == [] then map[] else
    var rest, last := Collect(found[..|found| - 1]), found[|found| - 1];
    rest[last.0 := (if last.0 in rest then rest[last.0] else []) + [last.1]]
  }

  function ValuesOf(found: seq<(string, Value)>, field: string): seq<Value> {
    if found == [] then [] else
    ValuesOf(found[..|found| - 1], field) + if found[|found| - 1].0 == field then [found[|found| - 1].1] else []
  }

  /** The form holds exactly the fields found, each with its values in the order of the body. */
  lemma {:induction false} CollectMeans(found: seq<(string, Value)>, field: string)
    ensures field in Collect(found) <==> ValuesOf(found, field) != []
    ensures field in Collect(found) ==> Collect(found)[field] == ValuesOf(found, field)
  {
    if found != [] { CollectMeans(found[..|found| - 1], field); }
  }

  /** `_parse_disposition`. */
  method ParseDisposition(value: string) returns (params: map<string, string>)
    ensures params == Params(Split(value, ";"))
  {
    var chunks := Split(value, ";");
    params := map[];
    for i := 0 to |chunks|
      invariant params == Params(chunks[..i])
    {
      assert chunks[..i + 1][..i] == chunks[..i];
      var chunk := Strip(chunks[i], SPACES);
      if Contains(chunk, "=") {
        params := params[Lower(Strip(Head(chunk, "="), SPACES)) := Strip(Strip(Tail(chunk, "="), SPACES), QUOTE)];
      }
    }
    assert chunks[..|chunks|] == chunks;
  }

  method ParseHead(lines: seq<string>) returns (h: Headers)
    ensures h == ReadHeaders(lines)
  {
    h := Headers("", "text/plain");
    for i := 0 to |lines|
      invariant h == ReadHeaders(lines[..i])
    {
      assert lines[..i + 1][..i] == lines[..i];
      var key := Lower(Strip(Head(lines[i], ":"), SPACES));
      if key == "content-disposition" {
        h := h.(disposition := Strip(Tail(lines[i], ":"), SPACES));
      } else if key == "content-type" {
        h := h.(contentType := Strip(Tail(lines[i], ":"), SPACES));
      }
    }
    assert lines[..|lines|] == lines;
  }

  lemma PiecesCons(first: string, rest: seq<string>)
    ensures ParsePieces([]) == []
    ensures ParsePieces([first] + rest) ==
      (if ParsePiece(first).Some? then [ParsePiece(first).value] else []) + ParsePieces(rest)
  {
    hide ParsePiece;
    assert ([first] + rest)[1..] == rest;
  }

  lemma {:induction false} PiecesGrow(pieces: seq<string>, raw: string)
    ensures ParsePieces(pieces + [raw]) ==
      if ParsePiece(raw).Some? then ParsePieces(pieces) + [ParsePiece(raw).value] else ParsePieces(pieces)
  {
    hide ParsePiece;
    hide ParsePieces;
    if pieces == [] {
      PiecesCons(raw, []);
      assert [raw] + [] == [] + [raw];
    } else {
      var first, rest := pieces[0], pieces[1..];
      PiecesGrow(rest, raw);
      PiecesCons(first, rest);
      PiecesCons(first, rest + [raw]);
      assert pieces == [first] + rest && pieces + [raw] == [first] + (rest + [raw]);
    }
  }

  lemma CollectGrows(found: seq<(string, Value)>, field: string, value: Value)
    ensures var data := Collect(found);
      Collect(found + [(field, value)]) == data[field := (if field in data then data[field] else []) + [value]]
  {
    assert (found + [(field, value)])[..|found|] == found;
  }

  /** `parse_multipart`. */
  method ParseMultipart(body: string, boundary: string) returns (data: map<string, seq<Value>>)
    ensures data == Collect(Parse(body, boundary))
  {
    var pieces := Split(body, Delimiter(boundary));
    data := map[];
    for i := 0 to |pieces|
      invariant data == Collect(ParsePieces(pieces[..i]))
    {
      hide Collect;
      hide ParsePieces;
      assert pieces[..i + 1] == pieces[..i] + [pieces[i]];
      PiecesGrow(pieces[..i], pieces[i]);
      var part := Strip(pieces[i], BREAKS);
      if part == "" || part == "--" { continue; }
      var h := ParseHead(Split(Head(part, "\r\n\r\n"), "\r\n"));
      var params := ParseDisposition(h.disposition);
      if "name" !in params { continue; }
      var field, content := params["name"], Tail(part, "\r\n\r\n");
      var value := if "filename" in params then File(params["filename"], h.contentType, content) else Text(content);
      CollectGrows(ParsePieces(pieces[..i]), field, value);
      data := data[field := (if field in data then data[field] else []) + [value]];
    }
    assert pieces[..|pieces|] == pieces;
  }

  /** What a form holds under a field after its parts were printed and parsed: the contents sent under
      that name, in order, each without its trailing line breaks. */
  lemma FormBack(parts: seq<Part>, boundary: string, field: string)
    requires boundary != "" && Free(boundary, BREAKS)
    requires forall p :: p in parts ==> Printable(p) && !Contains(Piece(p), Delimiter(boundary))
    ensures var form := Collect(Parse(Print(parts, boundary), boundary));
      if field in form then form[field] == ValuesOf(ReadBackAll(parts), field)
        else ValuesOf(ReadBackAll(parts), field) == []
  {
    hide Collect;
    hide ValuesOf;
    ParsePrint(parts, boundary);
    CollectMeans(ReadBackAll(parts), field);
  }
}
