/**
  `read_tag_file`, on the heap: a loop over `fgets` chunks, against `Load`.
 */
module TagLoader {
  import opened CString
  import opened TagFile
  import opened NavDaemon

  /** A NUL behind the copied bytes ends the string where the chunk ends. */
  lemma AtPrefix(b: seq<char>, chunk: string, n: nat)
    requires n == |chunk| < |b| && b[..n] == chunk && b[n] == '\0'
    ensures At(b, 0) == At(chunk, 0)
  {
    var e := End(chunk, 0);
    assert forall k | 0 <= k < n :: b[k] == chunk[k];
    EndIs(b, 0, e);
  }

  /** `fgets` from position `pos` into a buffer of 256 bytes. */
  method Fgets(line: array<char>, content: string, pos: nat) returns (next: nat)
    requires line.Length == CHUNK_MAX + 1 && line[CHUNK_MAX] == '\0' && pos < |content|
    modifies line
    ensures line[CHUNK_MAX] == '\0'
    ensures pos < next <= |content| && next == pos + ChunkLen(content[pos..], CHUNK_MAX)
    ensures At(line[..], 0) == At(content[pos..next], 0)
  {
    ghost var rest := content[pos..];
    var n := 0;
    while n < CHUNK_MAX && pos + n < |content| && (n == 0 || content[pos + n - 1] != '\n')
      invariant 0 <= n <= CHUNK_MAX && pos + n <= |content|
      invariant forall k | 0 <= k < n - 1 :: rest[k] != '\n'
      invariant line[..n] == content[pos..pos + n] && line[CHUNK_MAX] == '\0'
    {
      line[n] := content[pos + n];
      n := n + 1;
    }
    line[n] := '\0';
    next := pos + n;
    ChunkLenIs(rest, CHUNK_MAX, n);
    AtPrefix(line[..], content[pos..next], n);
  }

  /** The two `strtok_r` calls on one line. */
  method ReadRecord(line: array<char>) returns (r: Option<Tag>)
    requires line.Length > 0 && line[line.Length - 1] == '\0'
    modifies line
    ensures line[line.Length - 1] == '\0'
    ensures r == ParseLine(At(old(line[..]), 0))
  {
    hide Skip, UpTo, After, Trim, Strtok, At;
    TerminatedByLast(line[..], 0);
    ghost var text := At(line[..], 0);
    var tok, save := StrtokR(line, 0, {'='});
    if tok < 0 {
      return None;
    }
    var tag := CopyTrimmed(line, tok);
    ghost var rest := At(line[..], save);
    NoDelims(rest);
    tok, save := StrtokR(line, save, {});
    if tok < 0 {
      return None;
    }
    var path := CopyTrimmed(line, tok);
    return Some(Tag(tag, path));
  }

  /** A known name takes the new path unchecked; a new name needs a valid one. */
  method StoreRecord(st: NavState, rec: Tag)
    requires st.Valid()
    modifies st.Repr, st.heap
    ensures st.Valid() && fresh(st.Repr - old(st.Repr))
    ensures st.View() == old(st.View()).(tags := Apply(old(st.View()).tags, rec, st.env.valid))
  {
    hide NavState.Valid, NavState.View;
    ghost var i;
    var node;
    node, i := st.FindTag(rec.name);
    if node != null {
      st.SetPath(node, rec.path, i);
    } else if st.env.valid(rec.path) {
      st.AppendTag(rec.name, rec.path);
    }
  }

  /** The records from `pos` on. */
  function RecordsFrom(content: string, pos: nat): seq<Tag>
    requires pos <= |content|
  {
    Records(Chunks(content[pos..]))
  }

  lemma RecordsStep(content: string, pos: nat, next: nat)
    requires pos < next <= |content| && next == pos + ChunkLen(content[pos..], CHUNK_MAX)
    ensures var line := At(content[pos..next], 0);
      RecordsFrom(content, pos) ==
        if line == "\n" then []
        else match ParseLine(line)
          case None => RecordsFrom(content, next)
          case Some(t) => [t] + RecordsFrom(content, next)
  {
    var rest := content[pos..];
    hide ChunkLen, ParseLine, At;
    var chunk := content[pos..next];
    assert rest[..next - pos] == chunk && rest[next - pos..] == content[next..];
    assert Chunks(rest) == [chunk] + Chunks(content[next..]);
    assert Chunks(rest)[0] == chunk && Chunks(rest)[1..] == Chunks(content[next..]);
  }

  lemma NoMoreRecords(content: string)
    ensures RecordsFrom(content, |content|) == []
  {
    assert content[|content|..] == "";
  }

  lemma LoadOne(tags: seq<Tag>, rec: Tag, rest: seq<Tag>, valid: Validity)
    ensures Load(tags, [rec] + rest, valid) == Load(Apply(tags, rec, valid), rest, valid)
  {
    assert ([rec] + rest)[1..] == rest;
  }

  /** `strcmp(line, "\n") == 0` */
  lemma BlankLine(b: seq<char>)
    requires |b| > 1
    ensures At(b, 0) == "\n" <==> b[0] == '\n' && b[1] == '\0'
  {
    if b[0] == '\n' && b[1] == '\0' {
      EndIs(b, 0, 1);
    }
  }

  method ReadTagFile(st: NavState, content: string)
    requires st.Valid()
    modifies st.Repr, st.heap
    ensures st.Valid() && fresh(st.Repr - old(st.Repr))
    ensures st.View() == old(st.View()).(tags := Load(old(st.View()).tags, Records(Chunks(content)), st.env.valid))
  {
    hide NavState.Valid, NavState.View, Chunks, Records, ParseLine, Apply;
    ghost var goal := Load(st.View().tags, RecordsFrom(content, 0), st.env.valid);
    assert content[0..] == content;
    var line := new char[CHUNK_MAX + 1](_ => '\0');
    var pos := 0;
    while pos < |content|
      invariant 0 <= pos <= |content|
      invariant line.Length == CHUNK_MAX + 1 && line[CHUNK_MAX] == '\0' && fresh(line) && line !in st.Repr
      invariant st.Valid() && fresh(st.Repr - old(st.Repr))
      invariant st.View() == old(st.View()).(tags := st.View().tags)
      invariant Load(st.View().tags, RecordsFrom(content, pos), st.env.valid) == goal
    {
      var next := Fgets(line, content, pos);
      RecordsStep(content, pos, next);
      BlankLine(line[..]);
      if line[0] == '\n' && line[1] == '\0' {
        break;
      }
      var rec := ReadRecord(line);
      if rec.Some? {
        LoadOne(st.View().tags, rec.value, RecordsFrom(content, next), st.env.valid);
        StoreRecord(st, rec.value);
      }
      pos := next;
    }
    NoMoreRecords(content);
  }
}
