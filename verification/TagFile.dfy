/**
  The tag file: one `tag=path` record a line, and a blank line at the end.

  `Write` is what `write_tag_file` prints.  `Read` is what `read_tag_file` makes of
  any file content: `fgets` cuts it into chunks of at most 255 bytes, each chunk is
  tokenised on `=`, and a record updates the tag of that name or, when its path is
  valid, appends a new one.
 */
module TagFile {
  import opened CString

  datatype Tag = Tag(name: string, path: string)

  type Validity = string -> bool

  // Reading

  /** `sizeof(line) - 1`: the most bytes one `fgets` call stores. */
  const CHUNK_MAX: nat := 255

  /** How many bytes `fgets` takes from `s`: up to a newline, at most `cap`. */
  function ChunkLen(s: string, cap: nat): (n: nat)
    ensures n <= |s| && n <= cap
    ensures s != "" && cap > 0 ==> n > 0
    ensures forall k | 0 <= k < n - 1 :: s[k] != '\n'
    ensures n < |s| && n < cap ==> n > 0 && s[n - 1] == '\n'
  {
    if s == "" || cap == 0 then 0
    else if s[0] == '\n' then 1
    else 1 + ChunkLen(s[1..], cap - 1)
  }

  /** Where the first newline, the cap or the end comes first determines `ChunkLen`. */
  lemma ChunkLenIs(s: string, cap: nat, n: nat)
    requires 0 < n <= |s| && n <= cap
    requires forall k | 0 <= k < n - 1 :: s[k] != '\n'
    requires n == cap || n == |s| || s[n - 1] == '\n'
    ensures ChunkLen(s, cap) == n
  {
  }

  /** The lines that successive `fgets` calls return. */
  function Chunks(content: string): seq<string>
    decreases |content|
  {
    if content == "" then []
    else
      var n := ChunkLen(content, CHUNK_MAX);
      [content[..n]] + Chunks(content[n..])
  }

  /** One line: the tag up to `=`, the path after it, both cut at white space. */
  function ParseLine(line: string): Option<Tag> {
    var t := Skip(line, {'='});
    var rest := After(t, {'='});
    if t == "" || rest == "" then None
    else Some(Tag(Trim(UpTo(t, {'='})), Trim(rest)))
  }

  /** The records in the chunks before the first blank line. */
  function Records(chunks: seq<string>): seq<Tag> {
    if chunks == [] || At(chunks[0], 0) == "\n" then []
    else
      match ParseLine(At(chunks[0], 0))
      case None => Records(chunks[1..])
      case Some(t) => [t] + Records(chunks[1..])
  }

  /** `list_get_node` on the tag list: the first tag of that name, or the length. */
  function TagIndex(tags: seq<Tag>, name: string): (i: nat)
    ensures i <= |tags|
    ensures forall k | 0 <= k < i :: tags[k].name != name
    ensures i < |tags| ==> tags[i].name == name
  {
    if tags == [] || tags[0].name == name then 0 else 1 + TagIndex(tags[1..], name)
  }

  /** A known name has its path replaced, unchecked; a new one needs a valid path. */
  function Apply(tags: seq<Tag>, rec: Tag, valid: Validity): seq<Tag> {
    var i := TagIndex(tags, rec.name);
    if i < |tags| then tags[i := rec]
    else if valid(rec.path) then tags + [rec]
    else tags
  }

  function Load(tags: seq<Tag>, recs: seq<Tag>, valid: Validity): seq<Tag>
    decreases |recs|
  {
    if recs == [] then tags else Load(Apply(tags, recs[0], valid), recs[1..], valid)
  }

  /** `read_tag_file` on an empty list. */
  function Read(content: string, valid: Validity): seq<Tag> {
    Load([], Records(Chunks(content)), valid)
  }

  // Writing

  function RecordText(t: Tag): string {
    t.name + "=" + t.path + "\n"
  }

  function RecordLen(t: Tag): nat {
    |t.name| + |t.path| + 2
  }

  function RecordTexts(tags: seq<Tag>): string {
    if tags == [] then "" else RecordText(tags[0]) + RecordTexts(tags[1..])
  }

  /** The content `write_tag_file` leaves. */
  function Write(tags: seq<Tag>): string {
    RecordTexts(tags) + "\n"
  }

  // Well-formedness

  predicate NulFree(s: string) {
    forall k | 0 <= k < |s| :: s[k] != '\0'
  }

  predicate DistinctNames(tags: seq<Tag>) {
    forall i, j | 0 <= i < j < |tags| :: tags[i].name != tags[j].name
  }

  /** What every trimmed C string satisfies. */
  predicate Clean(t: Tag) {
    Plain(t.name) && NulFree(t.name) && Plain(t.path) && NulFree(t.path)
  }

  /** A name that the reader finds again. */
  predicate GoodName(name: string) {
    name != "" && forall k | 0 <= k < |name| :: name[k] != '='
  }

  predicate WellFormed(tags: seq<Tag>) {
    && DistinctNames(tags)
    && forall i | 0 <= i < |tags| :: Clean(tags[i]) && GoodName(tags[i].name)
  }

  function Filter(tags: seq<Tag>, valid: Validity): seq<Tag> {
    if tags == [] then []
    else (if valid(tags[0].path) then [tags[0]] else []) + Filter(tags[1..], valid)
  }

  // The reader against a reference

  /** The first record of that name with a valid path, or the number of records. */
  function FirstValid(recs: seq<Tag>, name: string, valid: Validity): (i: nat)
    ensures i <= |recs|
    ensures forall k | 0 <= k < i :: !(recs[k].name == name && valid(recs[k].path))
    ensures i < |recs| ==> recs[i].name == name && valid(recs[i].path)
  {
    if recs == [] || (recs[0].name == name && valid(recs[0].path)) then 0
    else 1 + FirstValid(recs[1..], name, valid)
  }

  /** The path in the last record of that name. */
  function LastPath(recs: seq<Tag>, name: string): string {
    if recs == [] then ""
    else
      var last := recs[|recs| - 1];
      if last.name == name then last.path else LastPath(recs[..|recs| - 1], name)
  }

  function Contribution(recs: seq<Tag>, valid: Validity, k: nat): seq<Tag>
    requires k < |recs|
  {
    var name := recs[k].name;
    if FirstValid(recs, name, valid) == k then [Tag(name, LastPath(recs, name))] else []
  }

  /**
    The specification of the reader, over the first `n` records: one tag for every
    record that is the first valid one of its name, in file order, with the path of
    the last record of that name in the whole file.
   */
  function Reference(recs: seq<Tag>, valid: Validity, n: nat): seq<Tag>
    requires n <= |recs|
  {
    if n == 0 then []
    else Reference(recs, valid, n - 1) + Contribution(recs, valid, n - 1)
  }

  lemma {:induction false} LoadAppend(tags: seq<Tag>, recs: seq<Tag>, x: Tag, valid: Validity)
    ensures Load(tags, recs + [x], valid) == Apply(Load(tags, recs, valid), x, valid)
    decreases |recs|
  {
    if recs == [] {
      assert Load(Apply(tags, x, valid), [], valid) == Apply(tags, x, valid);
    } else {
      assert (recs + [x])[1..] == recs[1..] + [x];
      LoadAppend(Apply(tags, recs[0], valid), recs[1..], x, valid);
    }
  }

  lemma FirstValidIs(recs: seq<Tag>, name: string, valid: Validity, i: nat)
    requires i <= |recs|
    requires forall k | 0 <= k < i :: !(recs[k].name == name && valid(recs[k].path))
    requires i < |recs| ==> recs[i].name == name && valid(recs[i].path)
    ensures FirstValid(recs, name, valid) == i
  {
  }

  lemma TagIndexIs(tags: seq<Tag>, name: string, i: nat)
    requires i <= |tags|
    requires forall k | 0 <= k < i :: tags[k].name != name
    requires i < |tags| ==> tags[i].name == name
    ensures TagIndex(tags, name) == i
  {
  }

  lemma TagIndexAppend(r: seq<Tag>, t: Tag, name: string)
    ensures TagIndex(r + [t], name) ==
      var i := TagIndex(r, name);
      if i < |r| then i else if t.name == name then |r| else |r| + 1
  {
    var i := TagIndex(r, name);
    TagIndexIs(r + [t], name, if i < |r| then i else if t.name == name then |r| else |r| + 1);
  }

  /** Replaces the first tag of `x`'s name, if there is one. */
  function Update(r: seq<Tag>, x: Tag): seq<Tag> {
    var i := TagIndex(r, x.name);
    if i < |r| then r[i := x] else r
  }

  lemma UpdateAppend(r: seq<Tag>, t: Tag, x: Tag)
    ensures Update(r + [t], x) ==
      if TagIndex(r, x.name) == |r| && t.name == x.name then r + [x] else Update(r, x) + [t]
  {
    hide TagIndex;
    TagIndexAppend(r, t, x.name);
    var i := TagIndex(r, x.name);
    if i < |r| {
      assert (r + [t])[i := x] == r[i := x] + [t];
    } else if t.name == x.name {
      assert (r + [t])[|r| := x] == r + [x];
    }
  }

  lemma ContributionNames(before: seq<Tag>, recs: seq<Tag>, valid: Validity, k: nat, name: string)
    requires k < |recs|
    requires TagIndex(before, name) < |before| <==> FirstValid(recs, name, valid) < k
    ensures var r := before + Contribution(recs, valid, k);
      TagIndex(r, name) < |r| <==> FirstValid(recs, name, valid) <= k
  {
    hide TagIndex, FirstValid, LastPath;
    var last := recs[k].name;
    if FirstValid(recs, last, valid) == k {
      TagIndexAppend(before, Tag(last, LastPath(recs, last)), name);
    } else {
      assert before + Contribution(recs, valid, k) == before;
    }
  }

  /** A name is in the reference when its first valid record is among those read. */
  lemma {:induction false} ReferenceNames(recs: seq<Tag>, valid: Validity, n: nat, name: string)
    requires n <= |recs|
    ensures TagIndex(Reference(recs, valid, n), name) < |Reference(recs, valid, n)|
      <==> FirstValid(recs, name, valid) < n
  {
    hide Contribution;
    if n > 0 {
      ReferenceNames(recs, valid, n - 1, name);
      ContributionNames(Reference(recs, valid, n - 1), recs, valid, n - 1, name);
    }
  }

  lemma FirstValidAppend(recs: seq<Tag>, x: Tag, name: string, valid: Validity)
    ensures FirstValid(recs + [x], name, valid) ==
      var f := FirstValid(recs, name, valid);
      if f < |recs| || (name == x.name && valid(x.path)) then f else |recs| + 1
  {
    var f := FirstValid(recs, name, valid);
    FirstValidIs(recs + [x], name, valid,
      if f < |recs| || (name == x.name && valid(x.path)) then f else |recs| + 1);
  }

  lemma LastPathAppend(recs: seq<Tag>, x: Tag, name: string)
    ensures LastPath(recs + [x], name) == if x.name == name then x.path else LastPath(recs, name)
  {
    assert (recs + [x])[..|recs|] == recs;
  }

  lemma ContributionUpdate(recs: seq<Tag>, x: Tag, valid: Validity, k: nat)
    requires k < |recs|
    ensures Contribution(recs + [x], valid, k) ==
      if Contribution(recs, valid, k) != [] && recs[k].name == x.name then [x]
      else Contribution(recs, valid, k)
  {
    FirstValidAppend(recs, x, recs[k].name, valid);
    LastPathAppend(recs, x, recs[k].name);
  }

  /** One more record replaces the path of its name and leaves the rest. */
  lemma {:induction false} ReferenceUpdate(recs: seq<Tag>, x: Tag, valid: Validity, n: nat)
    requires n <= |recs|
    ensures Reference(recs + [x], valid, n) == Update(Reference(recs, valid, n), x)
  {
    if n > 0 {
      ReferenceUpdate(recs, x, valid, n - 1);
      ContributionUpdate(recs, x, valid, n - 1);
      ReferenceNames(recs, valid, n - 1, x.name);
      var before, c := Reference(recs, valid, n - 1), Contribution(recs, valid, n - 1);
      if c == [] {
        assert before + c == before;
        assert Update(before, x) + c == Update(before, x);
      } else {
        UpdateAppend(before, c[0], x);
      }
    }
  }

  /** For every sequence of records, loading them is the reference. */
  lemma {:induction false} LoadIsReference(recs: seq<Tag>, valid: Validity)
    ensures Load([], recs, valid) == Reference(recs, valid, |recs|)
    decreases |recs|
  {
    if recs != [] {
      var n := |recs| - 1;
      var init, x := recs[..n], recs[n];
      assert recs == init + [x];
      LoadIsReference(init, valid);
      LoadAppend([], init, x, valid);
      ReferenceUpdate(init, x, valid, n);
      ReferenceNames(init, valid, n, x.name);
      FirstValidAppend(init, x, x.name, valid);
      LastPathAppend(init, x, x.name);
    }
  }

  /** In the order of first valid records, all among the first `n`, with the last paths. */
  predicate InOrder(recs: seq<Tag>, valid: Validity, n: nat, r: seq<Tag>) {
    && (forall i | 0 <= i < |r| :: FirstValid(recs, r[i].name, valid) < n)
    && (forall i | 0 <= i < |r| :: r[i].path == LastPath(recs, r[i].name))
    && (forall i, j | 0 <= i < j < |r| ::
          FirstValid(recs, r[i].name, valid) < FirstValid(recs, r[j].name, valid))
  }

  lemma NoneInOrder(recs: seq<Tag>, valid: Validity)
    ensures InOrder(recs, valid, 0, [])
  {
  }

  lemma InOrderAppend(recs: seq<Tag>, valid: Validity, n: nat, r: seq<Tag>, t: Tag)
    requires InOrder(recs, valid, n, r) && FirstValid(recs, t.name, valid) == n && t.path == LastPath(recs, t.name)
    ensures InOrder(recs, valid, n + 1, r + [t])
  {
    hide FirstValid, LastPath;
  }

  lemma InOrderMore(recs: seq<Tag>, valid: Validity, n: nat, r: seq<Tag>)
    requires InOrder(recs, valid, n, r)
    ensures InOrder(recs, valid, n + 1, r)
  {
    hide FirstValid, LastPath;
  }

  lemma {:induction false} ReferenceOrder(recs: seq<Tag>, valid: Validity, n: nat)
    requires n <= |recs|
    ensures InOrder(recs, valid, n, Reference(recs, valid, n))
  {
    hide FirstValid, LastPath, InOrder;
    if n == 0 {
      NoneInOrder(recs, valid);
    } else {
      ReferenceOrder(recs, valid, n - 1);
      var before, last := Reference(recs, valid, n - 1), recs[n - 1].name;
      if FirstValid(recs, last, valid) == n - 1 {
        InOrderAppend(recs, valid, n - 1, before, Tag(last, LastPath(recs, last)));
      } else {
        assert Reference(recs, valid, n) == before;
        InOrderMore(recs, valid, n - 1, before);
      }
    }
  }

  /**
    The reader, for every file content: a name is loaded exactly when some record gives
    it a valid path, names come in the order of their first such record, each once, and
    each has the path of its last record.
   */
  lemma ReaderSpecification(content: string, valid: Validity)
    ensures var recs, tags := Records(Chunks(content)), Read(content, valid);
      && (forall name :: TagIndex(tags, name) < |tags| <==> FirstValid(recs, name, valid) < |recs|)
      && InOrder(recs, valid, |recs|, tags)
  {
    var recs := Records(Chunks(content));
    LoadIsReference(recs, valid);
    ReferenceOrder(recs, valid, |recs|);
    forall name
      ensures TagIndex(Read(content, valid), name) < |Read(content, valid)| <==> FirstValid(recs, name, valid) < |recs|
    {
      ReferenceNames(recs, valid, |recs|, name);
    }
  }
}
