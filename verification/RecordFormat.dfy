/**
  The tag file character by character: which lines are records, and of what tag; and
  what reading any file comes to in these terms.
 */
module RecordFormat {
  import opened CString
  import opened TagFile

  // One line

  /** Behind `i` equals signs a name, which ends at the equals sign `j`, and something behind that. */
  predicate SplitsAt(line: string, i: int, j: int) {
    && 0 <= i < j < |line| - 1
    && (forall k | 0 <= k < i :: line[k] == '=')
    && (forall k | i <= k < j :: line[k] != '=')
    && line[j] == '='
  }

  /** The line gives that name that path. */
  predicate Gives(line: string, name: string, path: string) {
    exists i, j | 0 <= i < j < |line| ::
      SplitsAt(line, i, j) && CutAtBlank(line[i..j], name) && CutAtBlank(line[j + 1..], path)
  }

  /** Where a line splits determines what the tokens are. */
  lemma SplitTokens(line: string, i: int, j: int)
    requires SplitsAt(line, i, j)
    ensures var t := Skip(line, {'='}); t != "" && UpTo(t, {'='}) == line[i..j] && After(t, {'='}) == line[j + 1..]
  {
    SpanIs(line, {'='}, i);
    var t := line[i..];
    assert forall k | 0 <= k < j - i :: t[k] == line[i + k];
    CSpanIs(t, {'='}, j - i);
  }

  lemma TokensSplit(line: string)
    requires var t := Skip(line, {'='}); t != "" && After(t, {'='}) != ""
    ensures SplitsAt(line, Span(line, {'='}), Span(line, {'='}) + CSpan(Skip(line, {'='}), {'='}))
  {
    var i := Span(line, {'='});
    var t := line[i..];
    var n := CSpan(t, {'='});
    assert line[i] == t[0] && line[i + n] == t[n];
    forall k | i <= k < i + n ensures line[k] != '=' {
      assert line[k] == t[k - i];
    }
    forall k | 0 <= k < i ensures line[k] == '=' {
      assert line[k] in {'='};
    }
  }

  lemma SplitBounds(line: string, i: int, j: int)
    requires SplitsAt(line, i, j)
    ensures 0 <= i < j < |line| - 1
  {
  }

  lemma RecordIsGiven(line: string, t: Tag)
    requires ParseLine(line) == Some(t)
    ensures Gives(line, t.name, t.path)
  {
    hide Skip, UpTo, After, Trim, SplitsAt, CutAtBlank;
    TokensSplit(line);
    var i := Span(line, {'='});
    var j := i + CSpan(Skip(line, {'='}), {'='});
    SplitBounds(line, i, j);
    SplitTokens(line, i, j);
    TrimIff(line[i..j], t.name);
    TrimIff(line[j + 1..], t.path);
  }

  /**
    Which lines are records: exactly those with a name and something behind its equals
    sign, whatever white space they hold; and the name and the path end at the first.
   */
  lemma ParseLineIff(line: string, t: Tag)
    ensures ParseLine(line) == Some(t) <==> Gives(line, t.name, t.path)
  {
    hide Skip, UpTo, After, Trim, SplitsAt, CutAtBlank;
    if ParseLine(line) == Some(t) {
      RecordIsGiven(line, t);
    }
    if Gives(line, t.name, t.path) {
      var i, j :| 0 <= i < j < |line| && SplitsAt(line, i, j)
        && CutAtBlank(line[i..j], t.name) && CutAtBlank(line[j + 1..], t.path);
      SplitBounds(line, i, j);
      SplitTokens(line, i, j);
      TrimIff(line[i..j], t.name);
      TrimIff(line[j + 1..], t.path);
      assert line[j + 1..] != "";
    }
  }

  lemma NotARecordIff(line: string)
    ensures ParseLine(line).None? <==> forall i, j :: !SplitsAt(line, i, j)
  {
    hide Skip, UpTo, After, Trim, SplitsAt;
    if ParseLine(line).Some? {
      TokensSplit(line);
    }
    forall i, j | SplitsAt(line, i, j) ensures ParseLine(line).Some? {
      SplitBounds(line, i, j);
      SplitTokens(line, i, j);
    }
  }

  /** What stands behind a blank does not matter. */
  lemma JunkIsIgnored(t: Tag, junk: string)
    requires Clean(t) && GoodName(t.name)
    ensures ParseLine(t.name + "=" + t.path + " " + junk) == Some(t)
  {
    var line, n := t.name + "=" + t.path + " " + junk, |t.name|;
    assert line[..n] == t.name && line[n] == '=' && line[n + 1..] == t.path + " " + junk;
    assert forall k | 0 <= k < n :: line[k] == t.name[k];
    assert line[0..n] == t.name;
    assert SplitsAt(line, 0, n);
    assert CutAtBlank(line[0..n], t.name);
    assert CutAtBlank(line[n + 1..], t.path);
    hide ParseLine, SplitsAt, CutAtBlank;
    ParseLineIff(line, t);
  }

  // The whole file

  /** The lines that the reader looks at: those before the first blank one. */
  function LinesRead(chunks: seq<string>): seq<string> {
    if chunks == [] || At(chunks[0], 0) == "\n" then []
    else [At(chunks[0], 0)] + LinesRead(chunks[1..])
  }

  /** The records among them, in order. */
  function Parsed(lines: seq<string>): seq<Tag> {
    if lines == [] then []
    else
      var n := |lines| - 1;
      Parsed(lines[..n]) + match ParseLine(lines[n]) case None => [] case Some(t) => [t]
  }

  lemma {:induction false} ParsedCons(line: string, lines: seq<string>)
    ensures Parsed([line] + lines) == (match ParseLine(line) case None => [] case Some(t) => [t]) + Parsed(lines)
    decreases |lines|
  {
    hide ParseLine;
    var n := |lines|;
    var all := [line] + lines;
    if n == 0 {
      assert all == [line] && [line][..0] == [];
    } else {
      assert all[..n] == [line] + lines[..n - 1];
      assert all[n] == lines[n - 1];
      ParsedCons(line, lines[..n - 1]);
    }
  }

  lemma {:induction false} RecordsAreParsed(chunks: seq<string>)
    ensures Records(chunks) == Parsed(LinesRead(chunks))
  {
    hide ParseLine, At;
    if chunks != [] && At(chunks[0], 0) != "\n" {
      RecordsAreParsed(chunks[1..]);
      ParsedCons(At(chunks[0], 0), LinesRead(chunks[1..]));
    }
  }

  /** Some line gives the name a valid path. */
  ghost predicate Loads(lines: seq<string>, name: string, valid: Validity) {
    exists k, path | 0 <= k < |lines| :: Gives(lines[k], name, path) && valid(path)
  }

  /** The last line that gives the name a path gives it this one. */
  ghost predicate LastGives(lines: seq<string>, name: string, path: string) {
    exists k | 0 <= k < |lines| ::
      && Gives(lines[k], name, path)
      && forall m, other | k < m < |lines| :: !Gives(lines[m], name, other)
  }

  lemma LoadsOneMore(init: seq<string>, line: string, name: string, valid: Validity)
    ensures Loads(init + [line], name, valid) <==>
      (Loads(init, name, valid)
       || (ParseLine(line).Some? && ParseLine(line).value.name == name && valid(ParseLine(line).value.path)))
  {
    hide ParseLine, Gives;
    var lines := init + [line];
    forall path ensures Gives(line, name, path) <==> ParseLine(line) == Some(Tag(name, path)) {
      ParseLineIff(line, Tag(name, path));
    }
    if Loads(init, name, valid) {
      var k, path :| 0 <= k < |init| && Gives(init[k], name, path) && valid(path);
      assert Gives(lines[k], name, path);
    }
    if ParseLine(line).Some? && ParseLine(line).value.name == name && valid(ParseLine(line).value.path) {
      assert Gives(lines[|init|], name, ParseLine(line).value.path);
    }
    if Loads(lines, name, valid) {
      var k, path :| 0 <= k < |lines| && Gives(lines[k], name, path) && valid(path);
      if k < |init| { assert Gives(init[k], name, path); }
    }
  }

  lemma {:induction false} LoadsIff(lines: seq<string>, name: string, valid: Validity)
    ensures Loads(lines, name, valid) <==> FirstValid(Parsed(lines), name, valid) < |Parsed(lines)|
    decreases |lines|
  {
    hide ParseLine, Gives, FirstValid;
    if lines != [] {
      var n := |lines| - 1;
      var init, line := lines[..n], lines[n];
      LoadsIff(init, name, valid);
      LoadsOneMore(init, line, name, valid);
      assert lines == init + [line];
      match ParseLine(line)
      case None => assert Parsed(lines) == Parsed(init);
      case Some(t) => FirstValidAppend(Parsed(init), t, name, valid);
    }
  }

  lemma LastOneMore(init: seq<string>, line: string, name: string, path: string)
    ensures LastGives(init + [line], name, path) <==>
      if ParseLine(line).Some? && ParseLine(line).value.name == name then ParseLine(line).value.path == path
      else LastGives(init, name, path)
  {
    hide ParseLine, Gives;
    var lines := init + [line];
    forall p ensures Gives(line, name, p) <==> ParseLine(line) == Some(Tag(name, p)) {
      ParseLineIff(line, Tag(name, p));
    }
    if ParseLine(line).Some? && ParseLine(line).value.name == name {
      assert Gives(lines[|init|], name, ParseLine(line).value.path);
    } else {
      if LastGives(init, name, path) {
        var k :| 0 <= k < |init| && Gives(init[k], name, path)
          && forall m, other | k < m < |init| :: !Gives(init[m], name, other);
        assert Gives(lines[k], name, path);
        forall m, other | k < m < |lines| ensures !Gives(lines[m], name, other) {
          if m < |init| { assert !Gives(init[m], name, other); }
        }
      }
      if LastGives(lines, name, path) {
        var k :| 0 <= k < |lines| && Gives(lines[k], name, path)
          && forall m, other | k < m < |lines| :: !Gives(lines[m], name, other);
        assert Gives(init[k], name, path);
        forall m, other | k < m < |init| ensures !Gives(init[m], name, other) {
          assert !Gives(lines[m], name, other);
        }
      }
    }
  }

  lemma {:induction false} LastGivesIff(lines: seq<string>, name: string, path: string)
    requires exists i :: 0 <= i < |Parsed(lines)| && Parsed(lines)[i].name == name
    ensures LastGives(lines, name, path) <==> LastPath(Parsed(lines), name) == path
    decreases |lines|
  {
    hide ParseLine, Gives, LastGives;
    var n := |lines| - 1;
    var init, line := lines[..n], lines[n];
    assert lines == init + [line];
    LastOneMore(init, line, name, path);
    match ParseLine(line)
    case None =>
      assert Parsed(lines) == Parsed(init);
      LastGivesIff(init, name, path);
    case Some(t) =>
      LastPathAppend(Parsed(init), t, name);
      if t.name != name {
        var i :| 0 <= i < |Parsed(lines)| && Parsed(lines)[i].name == name;
        assert Parsed(init)[i].name == name;
        LastGivesIff(init, name, path);
      }
  }

  /** A name that was loaded is the name of a record. */
  lemma FirstIsARecord(recs: seq<Tag>, name: string, valid: Validity)
    requires FirstValid(recs, name, valid) < |recs|
    ensures exists i :: 0 <= i < |recs| && recs[i].name == name
  {
  }

  lemma Member(tags: seq<Tag>, name: string, path: string, recs: seq<Tag>)
    requires forall i | 0 <= i < |tags| :: tags[i].path == LastPath(recs, tags[i].name)
    ensures Tag(name, path) in tags <==> TagIndex(tags, name) < |tags| && path == LastPath(recs, name)
  {
    hide LastPath;
    var k := TagIndex(tags, name);
    if k < |tags| { assert tags[k] == Tag(name, LastPath(recs, name)); }
  }

  /**
    The reader, for every file content, in terms of its lines: a tag is loaded exactly
    when a line before the first blank one gives its name a valid path, and the last line
    that gives its name any path gives it this one.
   */
  lemma ReaderIff(content: string, valid: Validity, name: string, path: string)
    ensures var lines := LinesRead(Chunks(content));
      Tag(name, path) in Read(content, valid) <==> Loads(lines, name, valid) && LastGives(lines, name, path)
  {
    var lines := LinesRead(Chunks(content));
    RecordsAreParsed(Chunks(content));
    ReaderSpecification(content, valid);
    hide Chunks, LinesRead, Records, Read, Parsed, FirstValid, LastPath, Loads, LastGives;
    Member(Read(content, valid), name, path, Parsed(lines));
    LoadsIff(lines, name, valid);
    if FirstValid(Parsed(lines), name, valid) < |Parsed(lines)| {
      FirstIsARecord(Parsed(lines), name, valid);
      LastGivesIff(lines, name, path);
    }
  }

  /**
    How `fgets` with a buffer of 256 bytes cuts a file: into pieces of 1 to 255 bytes with
    no newline before the last of them, each of which but the last is full or ends in one.
   */
  predicate CutByFgets(pieces: seq<string>, content: string) {
    && Concat(pieces) == content
    && (forall k | 0 <= k < |pieces| ::
          0 < |pieces[k]| <= 255 && forall i | 0 <= i < |pieces[k]| - 1 :: pieces[k][i] != '\n')
    && (forall k | 0 <= k < |pieces| - 1 :: |pieces[k]| == 255 || pieces[k][|pieces[k]| - 1] == '\n')
  }

  lemma {:induction false} ChunksAreCut(content: string)
    ensures CutByFgets(Chunks(content), content)
    decreases |content|
  {
    if content != "" {
      var n := ChunkLen(content, CHUNK_MAX);
      ChunksAreCut(content[n..]);
      var rest := Chunks(content[n..]);
      assert Chunks(content) == [content[..n]] + rest;
      assert content[..n] + content[n..] == content;
      if rest != [] { assert content[n..] != ""; }
    }
  }

  /** The piece that is cut off first is determined. */
  lemma CutFirst(pieces: seq<string>, content: string)
    requires CutByFgets(pieces, content) && content != ""
    ensures pieces != [] && pieces[0] == content[..ChunkLen(content, CHUNK_MAX)]
    ensures CutByFgets(pieces[1..], content[|pieces[0]|..])
  {
    var p, rest := pieces[0], pieces[1..];
    assert content == p + Concat(rest);
    assert content[|p|..] == Concat(rest);
    assert forall k | 0 <= k < |p| :: content[k] == p[k];
    if |p| < |content| {
      assert |pieces| > 1;
    }
    ChunkLenIs(content, CHUNK_MAX, |p|);
    assert forall k | 0 <= k < |rest| :: rest[k] == pieces[k + 1];
  }

  lemma EmptyIsUncut(pieces: seq<string>)
    requires CutByFgets(pieces, "")
    ensures pieces == []
  {
  }

  /** There is only one way to cut a file like that. */
  lemma {:induction false} ChunksIff(content: string, pieces: seq<string>)
    ensures pieces == Chunks(content) <==> CutByFgets(pieces, content)
    decreases |content|
  {
    ChunksAreCut(content);
    if CutByFgets(pieces, content) {
      if content == "" {
        EmptyIsUncut(pieces);
      } else {
        CutFirst(pieces, content);
        ChunksIff(content[|pieces[0]|..], pieces[1..]);
      }
    }
  }

  /** The lines read are the strings of the pieces before the first that is a newline alone. */
  lemma {:induction false} LinesReadAre(chunks: seq<string>)
    ensures var lines := LinesRead(chunks); var n := |lines|;
      && n <= |chunks|
      && (forall k | 0 <= k < n :: lines[k] == At(chunks[k], 0) != "\n")
      && (n < |chunks| ==> At(chunks[n], 0) == "\n")
  {
    hide At;
    if chunks != [] && At(chunks[0], 0) != "\n" {
      LinesReadAre(chunks[1..]);
    }
  }
}
