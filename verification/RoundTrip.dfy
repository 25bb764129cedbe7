/**
  What the reader makes of a file the writer left.

  The round trip is exact for records of at most 255 bytes.  A record of 256 bytes
  leaves its newline to the next `fgets` call, which takes it for the blank line
  that ends the file, so everything behind that record is lost.
 */
module RoundTrip {
  import opened CString
  import opened TagFile

  // Chunks

  /** A line: its only newline is its last byte. */
  predicate IsLine(r: string) {
    r != "" && r[|r| - 1] == '\n' && forall k | 0 <= k < |r| - 1 :: r[k] != '\n'
  }

  lemma ChunksOfLine(r: string, rest: string)
    requires IsLine(r) && |r| <= CHUNK_MAX
    ensures Chunks(r + rest) == [r] + Chunks(rest)
  {
    ChunkLenIs(r + rest, CHUNK_MAX, |r|);
    assert (r + rest)[..|r|] == r && (r + rest)[|r|..] == rest;
  }

  lemma ChunksOfLongLine(r: string, rest: string)
    requires IsLine(r) && |r| == CHUNK_MAX + 1
    ensures Chunks(r + rest) == [r[..CHUNK_MAX], "\n"] + Chunks(rest)
  {
    var s := r + rest;
    ChunkLenIs(s, CHUNK_MAX, CHUNK_MAX);
    assert s[..CHUNK_MAX] == r[..CHUNK_MAX];
    assert s[CHUNK_MAX..] == "\n" + rest;
    ChunksOfLine("\n", rest);
  }

  /** `fgets` returns lines that hold no newline before their last byte. */
  lemma {:induction false} ChunkShape(content: string, k: nat)
    requires k < |Chunks(content)|
    ensures var c := Chunks(content)[k];
      0 < |c| <= CHUNK_MAX && forall i | 0 <= i < |c| - 1 :: c[i] != '\n'
    decreases k
  {
    var n := ChunkLen(content, CHUNK_MAX);
    if k == 0 {
      assert Chunks(content)[0] == content[..n];
    } else {
      ChunkShape(content[n..], k - 1);
    }
  }

  /** ... and only characters of the file. */
  lemma {:induction false} ChunkChars(content: string, k: nat, c: char)
    requires k < |Chunks(content)|
    requires forall i | 0 <= i < |content| :: content[i] != c
    ensures forall i | 0 <= i < |Chunks(content)[k]| :: Chunks(content)[k][i] != c
    decreases k
  {
    var n := ChunkLen(content, CHUNK_MAX);
    if k > 0 {
      ChunkChars(content[n..], k - 1, c);
    }
  }

  // One record

  lemma AtWhole(s: string)
    requires NulFree(s)
    ensures At(s, 0) == s
  {
    EndIs(s, 0, |s|);
  }

  lemma TrimLine(path: string, tail: string)
    requires Plain(path) && (tail == "" || tail == "\n")
    ensures Trim(path + tail) == path
  {
    CSpanIs(path + tail, {' ', '\n'}, |path|);
  }

  /** A well-formed record is read back, with or without its newline. */
  lemma RecordParses(t: Tag, tail: string)
    requires Clean(t) && GoodName(t.name)
    requires tail == "\n" || (tail == "" && t.path != "")
    ensures ParseLine(t.name + "=" + t.path + tail) == Some(t)
  {
    var line := t.name + "=" + t.path + tail;
    assert line[0] == t.name[0];
    SpanIs(line, {'='}, 0);
    assert Skip(line, {'='}) == line;
    assert line[|t.name|] == '=';
    CSpanIs(line, {'='}, |t.name|);
    assert UpTo(line, {'='}) == t.name;
    assert After(line, {'='}) == t.path + tail;
    TrimIsPlain(t.name);
    TrimLine(t.path, tail);
  }

  /** A 255-byte chunk that ends at `=` holds no record. */
  lemma ParseNoPath(t: Tag)
    requires Clean(t) && GoodName(t.name)
    ensures ParseLine(t.name + "=").None?
  {
    var line := t.name + "=";
    assert line[0] == t.name[0];
    SpanIs(line, {'='}, 0);
    assert Skip(line, {'='}) == line;
    CSpanIs(line, {'='}, |t.name|);
    assert After(line, {'='}) == "";
  }

  // All records

  /** The records that survive: those up to the first of 256 bytes. */
  function Kept(tags: seq<Tag>): seq<Tag> {
    if tags == [] then []
    else if RecordLen(tags[0]) == CHUNK_MAX + 1 then if tags[0].path == "" then [] else [tags[0]]
    else [tags[0]] + Kept(tags[1..])
  }

  predicate Fits(tags: seq<Tag>) {
    forall i | 0 <= i < |tags| :: RecordLen(tags[i]) <= CHUNK_MAX + 1
  }

  lemma RecordIsLine(t: Tag)
    requires Clean(t)
    ensures IsLine(RecordText(t)) && |RecordText(t)| == RecordLen(t)
  {
    var r := RecordText(t);
    forall k | 0 <= k < |r| - 1 ensures r[k] != '\n' {
      if k > |t.name| { assert r[k] == t.path[k - |t.name| - 1]; }
    }
  }

  lemma ShortRecord(t: Tag, rest: string)
    requires Clean(t) && GoodName(t.name) && RecordLen(t) <= CHUNK_MAX
    ensures Records(Chunks(RecordText(t) + rest)) == [t] + Records(Chunks(rest))
  {
    var r := RecordText(t);
    RecordIsLine(t);
    ChunksOfLine(r, rest);
    assert NulFree(r);
    AtWhole(r);
    assert |r| != 1;
    assert r == t.name + "=" + t.path + "\n";
    RecordParses(t, "\n");
  }

  lemma LongRecord(t: Tag, rest: string)
    requires Clean(t) && GoodName(t.name) && RecordLen(t) == CHUNK_MAX + 1
    ensures Records(Chunks(RecordText(t) + rest)) == if t.path == "" then [] else [t]
  {
    var r := RecordText(t);
    RecordIsLine(t);
    ChunksOfLongLine(r, rest);
    var line := r[..CHUNK_MAX];
    assert line == t.name + "=" + t.path + "";
    assert NulFree(line);
    AtWhole(line);
    AtWhole("\n");
    var chunks := ["\n"] + Chunks(rest);
    assert Chunks(r + rest) == [line] + chunks;
    assert Records(chunks) == [];
    if t.path == "" {
      assert line == t.name + "=";
      ParseNoPath(t);
    } else {
      RecordParses(t, "");
    }
  }

  lemma BlankLineEnds()
    ensures Records(Chunks("\n")) == []
  {
    AtWhole("\n");
    ChunksOfLine("\n", "");
    assert "\n" + "" == "\n";
  }

  lemma {:induction false} RecordsOfWrite(tags: seq<Tag>)
    requires forall i | 0 <= i < |tags| :: Clean(tags[i]) && GoodName(tags[i].name)
    requires Fits(tags)
    ensures Records(Chunks(Write(tags))) == Kept(tags)
  {
    if tags == [] {
      BlankLineEnds();
      assert Write([]) == "\n";
    } else {
      var rest := Write(tags[1..]);
      assert Write(tags) == RecordText(tags[0]) + rest;
      if RecordLen(tags[0]) == CHUNK_MAX + 1 {
        LongRecord(tags[0], rest);
      } else {
        ShortRecord(tags[0], rest);
        RecordsOfWrite(tags[1..]);
      }
    }
  }

  lemma DistinctSub(acc: seq<Tag>, added: seq<Tag>, recs: seq<Tag>)
    requires recs != [] && DistinctNames(acc + recs)
    requires added == [] || added == [recs[0]]
    ensures DistinctNames(acc + added + recs[1..])
  {
    var s, t := acc + added + recs[1..], acc + recs;
    var d := if added == [] then 1 else 0;
    forall i | 0 <= i < |s| ensures s[i] == t[if i < |acc| then i else i + d] {
    }
  }

  /** Records with distinct names only ever append. */
  lemma {:induction false} LoadDistinct(acc: seq<Tag>, recs: seq<Tag>, valid: Validity)
    requires DistinctNames(acc + recs)
    ensures Load(acc, recs, valid) == acc + Filter(recs, valid)
    decreases |recs|
  {
    if recs != [] {
      var x := recs[0];
      var next := Apply(acc, x, valid);
      forall i | 0 <= i < |acc| ensures acc[i].name != x.name {
        assert (acc + recs)[i] == acc[i] && (acc + recs)[|acc|] == x;
      }
      TagIndexIs(acc, x.name, |acc|);
      var added := if valid(x.path) then [x] else [];
      assert next == acc + added;
      assert DistinctNames(next + recs[1..]) by {
        DistinctSub(acc, added, recs);
      }
      LoadDistinct(next, recs[1..], valid);
      Associative(acc, added, Filter(recs[1..], valid));
    }
  }

  lemma {:induction false} KeptIsPrefix(tags: seq<Tag>)
    ensures Kept(tags) <= tags
  {
    if tags != [] && RecordLen(tags[0]) != CHUNK_MAX + 1 {
      KeptIsPrefix(tags[1..]);
      assert tags == [tags[0]] + tags[1..];
    }
  }

  /** For records of at most 256 bytes reading gives those that survive, filtered to valid paths. */
  lemma {:induction false} ReadOfWrite(tags: seq<Tag>, valid: Validity)
    requires WellFormed(tags) && Fits(tags)
    ensures Read(Write(tags), valid) == Filter(Kept(tags), valid)
  {
    RecordsOfWrite(tags);
    KeptIsPrefix(tags);
    LoadDistinct([], Kept(tags), valid);
    assert [] + Kept(tags) == Kept(tags);
    assert [] + Filter(Kept(tags), valid) == Filter(Kept(tags), valid);
  }

  // The exact bound

  /** No record of 256 bytes stands before a record with a valid path. */
  predicate NothingLost(tags: seq<Tag>, valid: Validity) {
    forall i, j | 0 <= i < j < |tags| && RecordLen(tags[i]) == CHUNK_MAX + 1 :: !valid(tags[j].path)
  }

  lemma {:induction false} FilterNoneIff(tags: seq<Tag>, valid: Validity)
    ensures Filter(tags, valid) == [] <==> forall j | 0 <= j < |tags| :: !valid(tags[j].path)
  {
    if tags != [] {
      FilterNoneIff(tags[1..], valid);
      assert forall j | 1 <= j < |tags| :: tags[j] == tags[1..][j - 1];
    }
  }

  lemma NothingLostTail(tags: seq<Tag>, valid: Validity)
    requires tags != [] && RecordLen(tags[0]) != CHUNK_MAX + 1
    ensures NothingLost(tags, valid) <==> NothingLost(tags[1..], valid)
  {
    var rest := tags[1..];
    if NothingLost(tags, valid) {
      forall i, j | 0 <= i < j < |rest| && RecordLen(rest[i]) == CHUNK_MAX + 1
        ensures !valid(rest[j].path)
      {
        assert RecordLen(tags[i + 1]) == CHUNK_MAX + 1 && tags[j + 1] == rest[j];
      }
    }
    if NothingLost(rest, valid) {
      forall i, j | 0 <= i < j < |tags| && RecordLen(tags[i]) == CHUNK_MAX + 1
        ensures !valid(tags[j].path)
      {
        assert RecordLen(rest[i - 1]) == CHUNK_MAX + 1 && tags[j] == rest[j - 1];
      }
    }
  }

  lemma PrefixCancel<T>(a: seq<T>, b: seq<T>, c: seq<T>)
    ensures a + b == a + c <==> b == c
  {
    assert b == (a + b)[|a|..] && c == (a + c)[|a|..];
  }

  lemma {:induction false} KeptLosesIff(tags: seq<Tag>, valid: Validity)
    requires !valid("")
    ensures Filter(Kept(tags), valid) == Filter(tags, valid) <==> NothingLost(tags, valid)
  {
    hide RecordLen;
    if tags != [] {
      var t, rest := tags[0], tags[1..];
      var head := if valid(t.path) then [t] else [];
      assert forall j | 1 <= j < |tags| :: tags[j] == rest[j - 1];
      if RecordLen(t) == CHUNK_MAX + 1 {
        FilterNoneIff(rest, valid);
        assert Filter(Kept(tags), valid) == head;
        assert Filter(tags, valid) == head + Filter(rest, valid);
        if Filter(rest, valid) == [] {
          assert head + [] == head;
        } else {
          assert |Filter(tags, valid)| > |head|;
          var j :| 0 <= j < |rest| && valid(rest[j].path);
          assert valid(tags[j + 1].path);
        }
      } else {
        KeptLosesIff(rest, valid);
        assert Kept(tags)[1..] == Kept(rest);
        assert Filter(Kept(tags), valid) == head + Filter(Kept(rest), valid);
        PrefixCancel(head, Filter(Kept(rest), valid), Filter(rest, valid));
        NothingLostTail(tags, valid);
      }
    }
  }

  /** The round trip of records of at most 256 bytes. */
  lemma ShortRoundTripIff(tags: seq<Tag>, valid: Validity)
    requires WellFormed(tags) && Fits(tags) && !valid("")
    ensures Read(Write(tags), valid) == Filter(tags, valid) <==> NothingLost(tags, valid)
  {
    ReadOfWrite(tags, valid);
    KeptLosesIff(tags, valid);
  }

  lemma {:induction false} ValidIsKept(tags: seq<Tag>, valid: Validity, i: nat)
    requires i < |tags| && valid(tags[i].path)
    ensures tags[i] in Filter(tags, valid)
  {
    if i > 0 { ValidIsKept(tags[1..], valid, i - 1); }
  }

  /** A name that makes a record of 256 bytes with the path `/p`. */
  const LONG_NAME: string := seq(252, _ => 'a')

  lemma LongNameIsGood()
    ensures Clean(Tag(LONG_NAME, "/p")) && GoodName(LONG_NAME) && RecordLen(Tag(LONG_NAME, "/p")) == CHUNK_MAX + 1
  {
    assert forall k | 0 <= k < |LONG_NAME| :: LONG_NAME[k] == 'a';
  }

  /** For instance, a record of 256 bytes and the tag `b` behind it. */
  lemma LongRecordHidesNext(valid: Validity)
    requires valid("/p") && !valid("")
    ensures var tags := [Tag(LONG_NAME, "/p"), Tag("b", "/p")];
      WellFormed(tags) && Filter(tags, valid) == tags && Read(Write(tags), valid) == tags[..1]
  {
    var tags := [Tag(LONG_NAME, "/p"), Tag("b", "/p")];
    LongNameIsGood();
    assert tags[0].name != tags[1].name by { assert |tags[0].name| != |tags[1].name|; }
    ReadOfWrite(tags, valid);
    assert Kept(tags) == tags[..1];
    assert tags[1..] == [tags[1]] && tags[1..][1..] == [];
    assert tags[..1][1..] == [];
  }
}
