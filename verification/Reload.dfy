/**
  Exactly which tag lists survive being written and read again.
 */
module Reload {
  import opened CString
  import opened TagFile
  import opened RoundTrip

  /** What holds of every tag list the daemon can reach. */
  predicate Storable(tags: seq<Tag>) {
    && DistinctNames(tags)
    && Fits(tags)
    && forall i | 0 <= i < |tags| :: Clean(tags[i])
  }

  /**
    What a restart needs: every name is non-empty and free of `=`, every path is
    valid, no record is longer than 256 bytes, and only the last may be that long.
   */
  predicate Restorable(tags: seq<Tag>, valid: Validity) {
    && (forall i | 0 <= i < |tags| :: GoodName(tags[i].name) && valid(tags[i].path))
    && Fits(tags)
    && (forall i | 0 <= i < |tags| - 1 :: RecordLen(tags[i]) <= CHUNK_MAX)
  }

  // What the reader can produce

  /** A record read from a chunk. */
  predicate FromChunk(t: Tag) {
    && Clean(t)
    && RecordLen(t) <= CHUNK_MAX + 1
    && forall k | 0 <= k < |t.name| :: t.name[k] != '='
  }

  lemma LineSplits(line: string)
    requires ParseLine(line).Some?
    ensures var t := Skip(line, {'='}); var name, rest := UpTo(t, {'='}), After(t, {'='});
      && ParseLine(line).value == Tag(Trim(name), Trim(rest)) && name != "" && rest != ""
      && |name| + 1 + |rest| == |t| <= |line| && t == line[|line| - |t|..]
      && name == t[..|name|] && '=' !in name && rest == t[|name| + 1..]
  {
    hide Span, CSpan, Trim;
  }

  lemma TrimShape(s: string)
    requires NulFree(s)
    ensures Plain(Trim(s)) && NulFree(Trim(s)) && Trim(s) <= s
    ensures s != "" && s[0] != ' ' && s[0] != '\n' ==> Trim(s) != ""
  {
    TrimIsPlain(s);
  }

  lemma ParseLineShape(line: string)
    requires NulFree(line) && |line| <= CHUNK_MAX
    requires forall i | 0 <= i < |line| - 1 :: line[i] != '\n'
    requires ParseLine(line).Some?
    ensures FromChunk(ParseLine(line).value)
    ensures SpaceFree(line) ==> ParseLine(line).value.name != ""
  {
    hide Skip, UpTo, After, Trim, ParseLine, Plain;
    LineSplits(line);
    var t := Skip(line, {'='});
    TrimShape(UpTo(t, {'='}));
    TrimShape(After(t, {'='}));
  }

  lemma LineShape(content: string, k: nat)
    requires k < |Chunks(content)|
    ensures var line := At(Chunks(content)[k], 0);
      && NulFree(line) && |line| <= CHUNK_MAX && (forall i | 0 <= i < |line| - 1 :: line[i] != '\n')
      && (SpaceFree(content) ==> SpaceFree(line))
  {
    hide Chunks;
    ChunkShape(content, k);
    if SpaceFree(content) {
      ChunkChars(content, k, ' ');
    }
  }

  lemma {:induction false} RecordsShape(content: string, from: nat, r: Tag)
    requires from <= |Chunks(content)|
    requires r in Records(Chunks(content)[from..])
    ensures FromChunk(r)
    ensures SpaceFree(content) ==> r.name != ""
    decreases |Chunks(content)| - from
  {
    hide Chunks, At, ParseLine, FromChunk, SpaceFree;
    var chunks := Chunks(content);
    assert chunks[from..][1..] == chunks[from + 1..];
    if ParseLine(At(chunks[from], 0)) == Some(r) {
      LineShape(content, from);
      ParseLineShape(At(chunks[from], 0));
    } else {
      RecordsShape(content, from + 1, r);
    }
  }

  /** Loading invents nothing and repeats no name. */
  lemma {:induction false} LoadShape(acc: seq<Tag>, recs: seq<Tag>, valid: Validity)
    requires DistinctNames(acc)
    ensures DistinctNames(Load(acc, recs, valid))
    ensures forall t | t in Load(acc, recs, valid) :: t in acc || t in recs
    decreases |recs|
  {
    if recs != [] {
      var next := Apply(acc, recs[0], valid);
      forall t | t in next ensures t in acc || t == recs[0] {
      }
      LoadShape(next, recs[1..], valid);
    }
  }

  /** For every file content, what is read is storable, with no `=` in a name. */
  lemma ReadShape(content: string, valid: Validity)
    ensures Storable(Read(content, valid))
    ensures forall t | t in Read(content, valid) :: FromChunk(t)
    ensures SpaceFree(content) ==> forall t | t in Read(content, valid) :: t.name != ""
  {
    var recs := Records(Chunks(content));
    LoadShape([], recs, valid);
    var tags := Read(content, valid);
    forall t | t in tags ensures FromChunk(t) && (SpaceFree(content) ==> t.name != "") {
      assert t in recs;
      assert Chunks(content)[0..] == Chunks(content);
      RecordsShape(content, 0, t);
    }
    forall i | 0 <= i < |tags| ensures Clean(tags[i]) && RecordLen(tags[i]) <= CHUNK_MAX + 1 {
      assert tags[i] in tags;
    }
  }

  // The equivalence

  lemma {:induction false} WriteSpaceFree(tags: seq<Tag>)
    requires forall i | 0 <= i < |tags| :: Clean(tags[i])
    ensures SpaceFree(Write(tags))
  {
    if tags != [] {
      WriteSpaceFree(tags[1..]);
      assert Write(tags) == RecordText(tags[0]) + Write(tags[1..]);
      assert SpaceFree(RecordText(tags[0]));
    }
  }

  lemma {:induction false} FilterAllIff(tags: seq<Tag>, valid: Validity)
    ensures |Filter(tags, valid)| <= |tags|
    ensures Filter(tags, valid) == tags <==> forall i | 0 <= i < |tags| :: valid(tags[i].path)
  {
    if tags != [] {
      FilterAllIff(tags[1..], valid);
      assert forall i | 1 <= i < |tags| :: tags[i] == tags[1..][i - 1];
      assert tags == [tags[0]] + tags[1..];
    }
  }

  lemma {:induction false} KeptAllIff(tags: seq<Tag>)
    requires forall i | 0 <= i < |tags| :: tags[i].path != ""
    ensures Kept(tags) == tags <==> forall i | 0 <= i < |tags| - 1 :: RecordLen(tags[i]) != CHUNK_MAX + 1
  {
    if tags != [] {
      KeptAllIff(tags[1..]);
      assert forall i | 1 <= i < |tags| :: tags[i] == tags[1..][i - 1];
      assert tags == [tags[0]] + tags[1..];
    }
  }

  lemma WellFormedReload(tags: seq<Tag>, valid: Validity)
    requires Storable(tags) && WellFormed(tags) && !valid("")
    ensures Read(Write(tags), valid) == tags <==> Restorable(tags, valid)
  {
    ReadOfWrite(tags, valid);
    KeptIsPrefix(tags);
    FilterAllIff(Kept(tags), valid);
    if |Filter(Kept(tags), valid)| == |tags| || Restorable(tags, valid) {
      if Filter(Kept(tags), valid) == tags {
        assert Kept(tags) == tags;
        assert forall i | 0 <= i < |tags| :: tags[i].path != "";
      }
      if forall i | 0 <= i < |tags| :: tags[i].path != "" {
        KeptAllIff(tags);
      }
    }
  }

  /**
    Writing a list and reading it back gives that list exactly when the list is
    restorable.
   */
  lemma ReloadIff(tags: seq<Tag>, valid: Validity)
    requires DistinctNames(tags) && !valid("")
    requires forall i | 0 <= i < |tags| :: Clean(tags[i])
    ensures Read(Write(tags), valid) == tags <==> Restorable(tags, valid)
  {
    if Read(Write(tags), valid) == tags {
      WriteSpaceFree(tags);
      ReadShape(Write(tags), valid);
      forall i | 0 <= i < |tags| ensures GoodName(tags[i].name) {
        assert tags[i] in tags;
      }
    }
    if WellFormed(tags) && Fits(tags) {
      WellFormedReload(tags, valid);
    }
  }

  /**
    The round trip with its sharp bound.  Reading what was written gives the list
    filtered to valid paths, in order, exactly when no record is longer than 256 bytes
    and none of 256 stands before a record with a valid path.  Records of at most 255
    bytes always survive.
   */
  lemma {:induction false} RoundTripIff(tags: seq<Tag>, valid: Validity)
    requires WellFormed(tags) && !valid("")
    requires forall i | 0 <= i < |tags| && !valid(tags[i].path) :: RecordLen(tags[i]) <= CHUNK_MAX + 1
    ensures Read(Write(tags), valid) == Filter(tags, valid) <==> Fits(tags) && NothingLost(tags, valid)
    ensures (forall i | 0 <= i < |tags| :: RecordLen(tags[i]) <= CHUNK_MAX)
      ==> Read(Write(tags), valid) == Filter(tags, valid)
  {
    if Fits(tags) {
      ShortRoundTripIff(tags, valid);
    } else {
      var i :| 0 <= i < |tags| && RecordLen(tags[i]) > CHUNK_MAX + 1;
      ValidIsKept(tags, valid, i);
      ReadShape(Write(tags), valid);
      assert tags[i] !in Read(Write(tags), valid);
    }
  }

  /**
    For every file content: what was loaded from it survives one rewrite exactly
    when it is restorable.  A path that a repeated record put in unchecked, an empty
    name, and a full 255-byte chunk are the three ways to lose something.
   */
  lemma {:induction false} RewriteIff(content: string, valid: Validity)
    requires !valid("")
    ensures var tags := Read(content, valid);
      Read(Write(tags), valid) == tags <==> Restorable(tags, valid)
  {
    ReadShape(content, valid);
    ReloadIff(Read(content, valid), valid);
  }

  // Two files whose tags do not survive

  lemma LoadTwo(a: Tag, b: Tag, valid: Validity)
    ensures Load([], [a, b], valid) == Apply(Apply([], a, valid), b, valid)
  {
    assert [a, b][1..] == [b] && [b][1..] == [];
    assert Load(Apply([], a, valid), [b], valid) == Load(Apply(Apply([], a, valid), b, valid), [], valid);
  }

  /** A short record at the end of the file. */
  lemma LastRecord(t: Tag)
    requires Clean(t) && GoodName(t.name) && RecordLen(t) <= CHUNK_MAX
    ensures Records(Chunks(RecordText(t))) == [t]
  {
    ShortRecord(t, "");
    assert RecordText(t) + "" == RecordText(t);
    assert Records(Chunks("")) == [];
  }

  /** A record that fills a chunk and has no newline. */
  lemma UnbrokenRecord(t: Tag, rest: string)
    requires Clean(t) && GoodName(t.name) && RecordLen(t) == CHUNK_MAX + 1 && t.path != ""
    ensures Records(Chunks(t.name + "=" + t.path + rest)) == [t] + Records(Chunks(rest))
  {
    var line := t.name + "=" + t.path;
    assert forall k | 0 <= k < |line| :: line[k] != '\n' && line[k] != '\0';
    ChunkLenIs(line + rest, CHUNK_MAX, CHUNK_MAX);
    assert (line + rest)[..CHUNK_MAX] == line && (line + rest)[CHUNK_MAX..] == rest;
    AtWhole(line);
    assert line == t.name + "=" + t.path + "";
    RecordParses(t, "");
    assert Chunks(line + rest) == [line] + Chunks(rest);
  }

  /** A chunk of 255 bytes without a newline, and the tag `b` behind it. */
  lemma FullChunkHidesNext(valid: Validity)
    requires valid("/p") && !valid("")
    ensures var tags := Read(LONG_NAME + "=" + "/p" + "b=/p\n", valid);
      tags == [Tag(LONG_NAME, "/p"), Tag("b", "/p")] && Read(Write(tags), valid) == tags[..1]
  {
    var t, b := Tag(LONG_NAME, "/p"), Tag("b", "/p");
    hide Records, Chunks, Load;
    LongNameIsGood();
    LongRecordHidesNext(valid);
    UnbrokenRecord(t, "b=/p\n");
    LastRecord(b);
    assert RecordText(b) == "b=/p\n";
    assert [t] + [b] == [t, b];
    LoadTwo(t, b, valid);
    assert t.name != b.name by { assert |t.name| != |b.name|; }
  }

  /** The second record of a name replaces the path of the first, valid or not. */
  lemma LoadRepeated(p: Tag, q: Tag, valid: Validity)
    requires valid(p.path) && p.name == q.name
    ensures Load([], [p, q], valid) == [q]
  {
    assert Apply([], p, valid) == [p] && Apply([p], q, valid) == [q];
    LoadTwo(p, q, valid);
  }

  lemma TwoRecords(p: Tag, q: Tag)
    requires Clean(p) && GoodName(p.name) && RecordLen(p) <= CHUNK_MAX
    requires Clean(q) && GoodName(q.name) && RecordLen(q) <= CHUNK_MAX
    ensures Records(Chunks(RecordText(p) + RecordText(q))) == [p, q]
  {
    ShortRecord(p, RecordText(q));
    LastRecord(q);
    assert [p] + [q] == [p, q];
  }

  /** A second record of a name puts in a path unchecked, which no restart finds again. */
  lemma UncheckedPathIsLost(valid: Validity)
    requires valid("/p") && !valid("/q") && !valid("")
    ensures var tags := Read("a=/p\n" + "a=/q\n", valid);
      tags == [Tag("a", "/q")] && Read(Write(tags), valid) != tags
  {
    var p, q := Tag("a", "/p"), Tag("a", "/q");
    assert RecordText(p) == "a=/p\n" && RecordText(q) == "a=/q\n";
    TwoRecords(p, q);
    hide Records, Chunks, Load;
    LoadRepeated(p, q, valid);
    assert !Restorable([q], valid) by { assert [q][0] == q; }
    RewriteIff("a=/p\n" + "a=/q\n", valid);
  }
}
