/**
  The tag list as a map that remembers insertion order.
 */
module TagMap {
  import opened CString
  import opened TagFile
  import opened RoundTrip
  import opened Reload
  import opened Daemon
  import opened Isolation
  import opened ActionStack

  function Lookup(tags: seq<Tag>, name: string): Option<string> {
    var i := TagIndex(tags, name);
    if i == |tags| then None else Some(tags[i].path)
  }

  function Names(tags: seq<Tag>): seq<string> {
    seq(|tags|, i requires 0 <= i < |tags| => tags[i].name)
  }

  /** The name that the arguments of `add`, `delete` and `get` start with. */
  function KeyOf(m: Message): Option<string> {
    if m.args.Some? && Words(m.args.value) != [] then Some(Trim(Words(m.args.value)[0])) else None
  }

  /** The name a message may change. */
  function Target(m: Message): Option<string> {
    var d := Dispatch(m.cmd);
    if d == Some(Add) || d == Some(Delete) then KeyOf(m) else None
  }

  /** Replacing or appending changes one name ... */
  lemma PutTagMap(tags: seq<Tag>, t: Tag, name: string)
    ensures Lookup(PutTag(tags, t), name) == if name == t.name then Some(t.path) else Lookup(tags, name)
  {
    var r, i, j := PutTag(tags, t), TagIndex(tags, t.name), TagIndex(tags, name);
    if name == t.name {
      TagIndexIs(r, name, i);
    } else {
      TagIndexIs(r, name, if j < |tags| then j else |r|);
    }
  }

  lemma NamesAt(tags: seq<Tag>, r: seq<Tag>, i: nat, t: Tag)
    requires i < |tags| && tags[i].name == t.name && r == tags[i := t]
    ensures Names(r) == Names(tags)
  {
    assert forall k | 0 <= k < |tags| :: r[k].name == tags[k].name;
  }

  lemma NamesSnoc(tags: seq<Tag>, t: Tag)
    ensures Names(tags + [t]) == Names(tags) + [t.name]
  {
  }

  /** ... and keeps the position of every name and every other entry. */
  lemma PutTagOrder(tags: seq<Tag>, t: Tag)
    ensures Names(PutTag(tags, t)) ==
      if Lookup(tags, t.name).Some? then Names(tags) else Names(tags) + [t.name]
    ensures forall i | 0 <= i < |tags| && i != TagIndex(tags, t.name) :: PutTag(tags, t)[i] == tags[i]
  {
    hide Names, TagIndex;
    var i := TagIndex(tags, t.name);
    if i == |tags| {
      NamesSnoc(tags, t);
    } else {
      NamesAt(tags, tags[i := t], i, t);
    }
  }

  /** Deleting the first match deletes the name, and nothing else. */
  lemma RemoveTagMap(tags: seq<Tag>, i: nat, name: string)
    requires DistinctNames(tags) && i < |tags|
    ensures Lookup(RemoveAt(tags, i), name) == if name == tags[i].name then None else Lookup(tags, name)
    ensures DistinctNames(RemoveAt(tags, i))
  {
    hide RemoveAt;
    var r, j := RemoveAt(tags, i), TagIndex(tags, name);
    RemoveAtIndex(tags, i);
    if name == tags[i].name {
      TagIndexIs(r, name, |r|);
    } else {
      assert j != i;
      TagIndexIs(r, name, if j < i then j else j - 1);
    }
  }

  // What every run keeps

  lemma {:induction false} WordsNulFree(s: string)
    requires NulFree(s)
    ensures forall i | 0 <= i < |Words(s)| :: NulFree(Words(s)[i])
    decreases |s|
  {
    var t := Skip(s, {' '});
    if t != "" {
      assert NulFree(t);
      WordsNulFree(After(t, {' '}));
      assert NulFree(UpTo(t, {' '}));
      assert Words(s) == [UpTo(t, {' '})] + Words(After(t, {' '}));
    }
  }

  /** Two words take at least their own length and a space. */
  lemma {:induction false} TwoWordsLength(s: string)
    requires |Words(s)| == 2
    ensures |Words(s)[0]| + 1 + |Words(s)[1]| <= |s|
  {
    var t := Skip(s, {' '});
    var w, u := UpTo(t, {' '}), After(t, {' '});
    assert Words(s) == [w] + Words(u);
    assert u != "";
    var t' := Skip(u, {' '});
    assert Words(u)[0] == UpTo(t', {' '});
  }

  predicate CleanTags(tags: seq<Tag>) {
    DistinctNames(tags) && forall i | 0 <= i < |tags| :: Clean(tags[i])
  }

  lemma AddedTagClean(args: string)
    requires NulFree(args) && |Words(args)| == 2
    ensures Clean(Tag(Trim(Words(args)[0]), Trim(Words(args)[1])))
    ensures |Trim(Words(args)[0])| + |Trim(Words(args)[1])| + 1 <= |args|
  {
    WordsNulFree(args);
    TwoWordsLength(args);
    TrimIsPlain(Words(args)[0]);
    TrimIsPlain(Words(args)[1]);
  }

  lemma PutTagClean(tags: seq<Tag>, t: Tag)
    requires CleanTags(tags) && Clean(t)
    ensures CleanTags(PutTag(tags, t))
  {
  }

  /** What one message does to the tag list. */
  datatype Change = Keep | Put(tag: Tag) | Drop(name: string)

  function ChangeOf(env: Env, s: State, m: Message): Change {
    var d := Dispatch(m.cmd);
    if d.None? || !NeedsArgs(d.value) || StackOf(s.shells, m.pid).None? then Keep
    else
      var r := OnTags(env.valid, s.tags, d.value, m.args);
      var ws := Words(m.args.value);
      if !r.saved then Keep
      else if d.value == Add then Put(Tag(Trim(ws[0]), Trim(ws[1])))
      else Drop(Trim(ws[0]))
  }

  predicate Possible(tags: seq<Tag>, c: Change) {
    c.Drop? ==> Lookup(tags, c.name).Some?
  }

  function Changed(tags: seq<Tag>, c: Change): seq<Tag>
    requires Possible(tags, c)
  {
    match c
    case Keep => tags
    case Put(t) => PutTag(tags, t)
    case Drop(name) => RemoveAt(tags, TagIndex(tags, name))
  }

  /** Only tag commands from registered shells touch the tags and the file. */
  lemma StepOnTags(env: Env, s: State, m: Message)
    ensures var s' := Step(env, s, m).state; var d := Dispatch(m.cmd);
      if d.Some? && IsTagCommand(d.value) && StackOf(s.shells, m.pid).Some?
      then
        var r := OnTags(env.valid, s.tags, d.value, m.args);
        s'.tags == r.tags && s'.file == if r.saved then Write(r.tags) else s.file
      else s'.tags == s.tags && s'.file == s.file
  {
    hide OnTags, OnStack, Write, RemoveAt, Dispatch;
  }

  /** A command that saves has put or dropped a tag; one that does not has kept them all. */
  lemma OnTagsChanges(valid: Validity, tags: seq<Tag>, c: Command, args: string)
    requires NeedsArgs(c)
    ensures var r := OnTags(valid, tags, c, Some(args)); var ws := Words(args);
      if !r.saved then r.tags == tags
      else if c == Add then |ws| == 2 && r.tags == PutTag(tags, Tag(Trim(ws[0]), Trim(ws[1])))
      else
        && c == Delete && ws != []
        && var i := TagIndex(tags, Trim(ws[0])); i < |tags| && r.tags == RemoveAt(tags, i)
  {
  }

  lemma StepChanges(env: Env, s: State, m: Message)
    ensures var c := ChangeOf(env, s, m);
      && Possible(s.tags, c)
      && Step(env, s, m).state.tags == Changed(s.tags, c)
      && Step(env, s, m).state.file == if c.Keep? then s.file else Write(Changed(s.tags, c))
  {
    StepOnTags(env, s, m);
    var d := Dispatch(m.cmd);
    if d.Some? && NeedsArgs(d.value) {
      OnTagsChanges(env.valid, s.tags, d.value, m.args.value);
    }
  }

  /** A put comes from the two words of an `add`, cleaned and checked. */
  lemma PutIsAdd(env: Env, s: State, m: Message)
    requires ChangeOf(env, s, m).Put?
    ensures var t := ChangeOf(env, s, m).tag;
      && Dispatch(m.cmd) == Some(Add)
      && Target(m) == Some(t.name)
      && env.valid(t.path)
      && t.path == Trim(Words(m.args.value)[1])
      && Clean(t)
      && RecordLen(t) <= |m.args.value| + 1
  {
    AddedTagClean(m.args.value);
  }

  lemma DropIsDelete(env: Env, s: State, m: Message)
    requires ChangeOf(env, s, m).Drop?
    ensures Dispatch(m.cmd) == Some(Delete) && Target(m) == Some(ChangeOf(env, s, m).name)
  {
  }

  lemma RemoveTagClean(tags: seq<Tag>, i: nat)
    requires CleanTags(tags) && i < |tags|
    ensures CleanTags(RemoveAt(tags, i)) && (Fits(tags) ==> Fits(RemoveAt(tags, i)))
  {
    hide RemoveAt, Clean, RecordLen;
    RemoveAtIndex(tags, i);
  }

  lemma PutTagFits(tags: seq<Tag>, t: Tag)
    requires Fits(tags) && RecordLen(t) <= CHUNK_MAX
    ensures Fits(PutTag(tags, t))
  {
    hide RecordLen;
  }

  lemma ChangedClean(tags: seq<Tag>, c: Change)
    requires CleanTags(tags) && Possible(tags, c) && (c.Put? ==> Clean(c.tag))
    ensures CleanTags(Changed(tags, c))
    ensures Fits(tags) && (c.Put? ==> RecordLen(c.tag) <= CHUNK_MAX) ==> Fits(Changed(tags, c))
  {
    hide CleanTags, Fits, Clean, RecordLen, PutTag, RemoveAt, TagIndex;
    match c
    case Keep =>
    case Put(t) =>
      PutTagClean(tags, t);
      if Fits(tags) && RecordLen(t) <= CHUNK_MAX { PutTagFits(tags, t); }
    case Drop(name) =>
      RemoveTagClean(tags, TagIndex(tags, name));
  }

  /** Every step keeps names distinct and records within what the file can hold. */
  lemma StepTags(env: Env, s: State, m: Message)
    requires CleanTags(s.tags)
    ensures CleanTags(Step(env, s, m).state.tags)
    ensures Fits(s.tags) && WireSized(m) ==> Fits(Step(env, s, m).state.tags)
  {
    var c := ChangeOf(env, s, m);
    StepChanges(env, s, m);
    if c.Put? { PutIsAdd(env, s, m); }
    ChangedClean(s.tags, c);
  }

  lemma {:induction false} RunTags(env: Env, s: State, ms: seq<Message>)
    requires CleanTags(s.tags)
    ensures CleanTags(Run(env, s, ms).state.tags)
    ensures Fits(s.tags) && AllWireSized(ms) ==> Fits(Run(env, s, ms).state.tags)
    decreases |ms|
  {
    if ms != [] {
      StepTags(env, s, ms[0]);
      RunTags(env, Step(env, s, ms[0]).state, ms[1..]);
    }
  }

  /** Paths that `get` can format in its buffer of 100 bytes. */
  predicate ShortPaths(tags: seq<Tag>) {
    forall i | 0 <= i < |tags| :: |tags[i].path| <= 98
  }

  lemma ChangedPaths(tags: seq<Tag>, c: Change)
    requires ShortPaths(tags) && Possible(tags, c) && (c.Put? ==> |c.tag.path| <= 98)
    ensures ShortPaths(Changed(tags, c))
  {
    match c
    case Keep =>
    case Put(t) =>
    case Drop(name) =>
      var i, r := TagIndex(tags, name), Changed(tags, c);
      assert forall k | 0 <= k < |r| :: r[k] == tags[if k < i then k else k + 1];
  }

  lemma StepPaths(env: Env, s: State, m: Message)
    requires ShortPaths(s.tags) && WireSized(m)
    ensures ShortPaths(Step(env, s, m).state.tags)
  {
    hide Step, ChangeOf, Changed, ShortPaths, Dispatch;
    var c := ChangeOf(env, s, m);
    StepChanges(env, s, m);
    if c.Put? { PutIsAdd(env, s, m); }
    ChangedPaths(s.tags, c);
  }

  lemma {:induction false} RunPaths(env: Env, s: State, ms: seq<Message>)
    requires ShortPaths(s.tags) && AllWireSized(ms)
    ensures ShortPaths(Run(env, s, ms).state.tags)
    decreases |ms|
  {
    if ms != [] {
      StepPaths(env, s, ms[0]);
      RunPaths(env, Step(env, s, ms[0]).state, ms[1..]);
    }
  }

  /** After these messages, `get` of that name formats its reply within its buffer. */
  predicate GetFitsAfter(env: Env, content: string, ms: seq<Message>, name: string) {
    var path := Lookup(Run(env, Start(env, content), ms).state.tags, name);
    path.Some? ==> |path.value + "\n"| < GET_SIZE
  }

  /**
    Every reply to `get` fits its buffer, in every reachable state and for every name,
    exactly when the paths in the tag file do: no `add` fits the receive buffer with a
    path too long, but a file can hold one.
   */
  lemma GetFitsIff(env: Env, content: string)
    ensures (forall ms: seq<Message>, name: string :: AllWireSized(ms) ==> GetFitsAfter(env, content, ms, name))
      <==> ShortPaths(Read(content, env.valid))
  {
    var tags := Read(content, env.valid);
    if ShortPaths(tags) {
      forall ms: seq<Message>, name: string | AllWireSized(ms) ensures GetFitsAfter(env, content, ms, name) {
        RunPaths(env, Start(env, content), ms);
      }
    } else {
      var i :| 0 <= i < |tags| && |tags[i].path| > 98;
      ReadShape(content, env.valid);
      TagIndexIs(tags, tags[i].name, i);
      var ms: seq<Message> := [];
      assert AllWireSized(ms) && !GetFitsAfter(env, content, ms, tags[i].name);
    }
  }

  const LONG_PATH: string := seq(99, _ => '/')

  /** A file of one valid record. */
  lemma OneRecord(t: Tag, valid: Validity)
    requires Clean(t) && GoodName(t.name) && RecordLen(t) <= CHUNK_MAX && valid(t.path)
    ensures Read(RecordText(t), valid) == [t]
  {
    LastRecord(t);
    assert [t][1..] == [] && Apply([], t, valid) == [t];
    assert Load([], [t], valid) == Load([t], [], valid);
  }

  lemma LoadedOverruns(env: Env, t: Tag)
    requires Clean(t) && GoodName(t.name) && RecordLen(t) <= CHUNK_MAX && env.valid(t.path) && |t.path| > 98
    ensures !GetFitsAfter(env, RecordText(t), [], t.name)
  {
    OneRecord(t, env.valid);
    hide Read, RecordText;
    TagIndexIs([t], t.name, 0);
    assert Run(env, Start(env, RecordText(t)), []).state.tags == [t];
  }

  /** For instance, a file that gives the tag `a` a path of 99 bytes. */
  lemma LongPathOverruns(env: Env)
    requires env.valid(LONG_PATH)
    ensures !GetFitsAfter(env, "a=" + LONG_PATH + "\n", [], "a")
  {
    hide GetFitsAfter;
    var t := Tag("a", LONG_PATH);
    assert forall k | 0 <= k < |LONG_PATH| :: LONG_PATH[k] == '/';
    LoadedOverruns(env, t);
    assert RecordText(t) == "a=" + LONG_PATH + "\n";
  }

  // A tag between its changes

  /** A change to one name is invisible under every other. */
  lemma ChangedLookup(tags: seq<Tag>, c: Change, name: string)
    requires DistinctNames(tags) && Possible(tags, c)
    ensures DistinctNames(Changed(tags, c))
    ensures Lookup(Changed(tags, c), name) ==
      match c
      case Keep => Lookup(tags, name)
      case Put(t) => if name == t.name then Some(t.path) else Lookup(tags, name)
      case Drop(n) => if name == n then None else Lookup(tags, name)
  {
    match c
    case Keep =>
    case Put(t) => PutTagMap(tags, t, name);
    case Drop(n) => RemoveTagMap(tags, TagIndex(tags, n), name);
  }

  lemma StepKeepsOther(env: Env, s: State, m: Message, name: string)
    requires DistinctNames(s.tags) && Target(m) != Some(name)
    ensures var tags := Step(env, s, m).state.tags; DistinctNames(tags) && Lookup(tags, name) == Lookup(s.tags, name)
  {
    hide Step, Target, DistinctNames, Lookup;
    var c := ChangeOf(env, s, m);
    StepChanges(env, s, m);
    ChangedLookup(s.tags, c, name);
    if c.Put? { PutIsAdd(env, s, m); }
    if c.Drop? { DropIsDelete(env, s, m); }
  }

  lemma {:induction false} RunKeepsOther(env: Env, s: State, ms: seq<Message>, name: string)
    requires DistinctNames(s.tags)
    requires forall i | 0 <= i < |ms| :: Target(ms[i]) != Some(name)
    ensures Lookup(Run(env, s, ms).state.tags, name) == Lookup(s.tags, name)
    decreases |ms|
  {
    if ms != [] {
      StepKeepsOther(env, s, ms[0], name);
      RunKeepsOther(env, Step(env, s, ms[0]).state, ms[1..], name);
    }
  }

  /** `get` from a registered shell replies with what the map holds. */
  lemma GetReplies(env: Env, s: State, m: Message)
    requires Dispatch(m.cmd) == Some(Get) && KeyOf(m).Some? && StackOf(s.shells, m.pid).Some?
    ensures TextOf(Step(env, s, m).reply) == Some(
      match Lookup(s.tags, KeyOf(m).value)
      case None => "BAD\n"
      case Some(path) => path + "\n")
  {
    hide OnStack, Write, RemoveAt, Dispatch, Words, Trim;
  }

  /** An `add` or `delete` is answered OK exactly when it saves the list. */
  lemma OkIffChanged(env: Env, s: State, m: Message)
    requires Dispatch(m.cmd) == Some(Add) || Dispatch(m.cmd) == Some(Delete)
    ensures TextOf(Step(env, s, m).reply) == Some("OK\n") <==> !ChangeOf(env, s, m).Keep?
  {
    hide PutTag, RemoveAt, Words, Trim, TagIndex;
    assert "OK\n"[0] != "BAD\n"[0];
  }

  lemma AfterChange(env: Env, s: State, m: Message)
    requires DistinctNames(s.tags) && !ChangeOf(env, s, m).Keep?
    ensures Target(m).Some? && DistinctNames(Step(env, s, m).state.tags)
    ensures Lookup(Step(env, s, m).state.tags, Target(m).value) ==
      if ChangeOf(env, s, m).Put? then Some(ChangeOf(env, s, m).tag.path) else None
  {
    hide Step, DistinctNames, Lookup;
    var c := ChangeOf(env, s, m);
    StepChanges(env, s, m);
    if c.Put? { PutIsAdd(env, s, m); } else { DropIsDelete(env, s, m); }
    ChangedLookup(s.tags, c, Target(m).value);
  }

  /**
    A change and the next look.  After an `add` or `delete` of a name that was answered
    OK, and any run that does not change that name, `get` from a registered shell
    replies the added path, or BAD after the deletion.
   */
  lemma GetAfterChange(env: Env, s: State, m: Message, ms: seq<Message>, get: Message, s1: State, s2: State)
    requires DistinctNames(s.tags)
    requires Dispatch(m.cmd) == Some(Add) || Dispatch(m.cmd) == Some(Delete)
    requires TextOf(Step(env, s, m).reply) == Some("OK\n") && s1 == Step(env, s, m).state
    requires forall i | 0 <= i < |ms| :: Target(ms[i]) != Target(m)
    requires s2 == Run(env, s1, ms).state
    requires Dispatch(get.cmd) == Some(Get) && KeyOf(get) == Target(m)
    requires StackOf(s2.shells, get.pid).Some?
    ensures TextOf(Step(env, s2, get).reply) ==
      Some(if ChangeOf(env, s, m).Put? then ChangeOf(env, s, m).tag.path + "\n" else "BAD\n")
  {
    OkIffChanged(env, s, m);
    AfterChange(env, s, m);
    RunKeepsOther(env, s1, ms, Target(m).value);
    GetReplies(env, s2, get);
  }

  /** The arguments of `add` as the client frames them. */
  function AddArgs(name: string, path: string): string {
    name + " " + path + " "
  }

  lemma AddArgsWords(name: string, path: string)
    requires name != "" && path != "" && SpaceFree(name) && SpaceFree(path)
    ensures Words(AddArgs(name, path)) == [name, path]
  {
    assert AddArgs(name, path) == name + " " + (path + " ");
    hide Words, SpaceFree;
    WordsCons(name, path + " ");
    assert path + " " == path + " " + "";
    WordsCons(path, "");
  }

  /** A registered shell's `add` of a valid path is accepted as sent. */
  lemma AddAccepts(env: Env, s: State, m: Message, name: string, path: string)
    requires name != "" && path != "" && Plain(name) && Plain(path) && env.valid(path)
    requires Dispatch(m.cmd) == Some(Add) && m.args == Some(AddArgs(name, path))
    requires StackOf(s.shells, m.pid).Some?
    ensures ChangeOf(env, s, m) == Put(Tag(name, path))
  {
    AddArgsWords(name, path);
    TrimIsPlain(name);
    TrimIsPlain(path);
  }

  // The completion list

  lemma ListTextCons(tags: seq<Tag>)
    requires |tags| > 1 && (forall i | 0 <= i < |tags| :: tags[i].name != "")
    ensures ListText(tags) == tags[0].name + " " + ListText(tags[1..])
  {
    var rest := SpacedNames(tags[1..]);
    assert rest == tags[1].name + " " + SpacedNames(tags[1..][1..]);
    assert SpacedNames(tags) == tags[0].name + " " + rest;
  }

  lemma ListTextOne(tags: seq<Tag>)
    requires |tags| == 1
    ensures ListText(tags) == tags[0].name && Names(tags) == [tags[0].name]
  {
    assert SpacedNames(tags[1..]) == "";
    assert SpacedNames(tags) == tags[0].name + " ";
  }

  lemma NamesCons(tags: seq<Tag>)
    requires tags != []
    ensures Names(tags) == [tags[0].name] + Names(tags[1..])
  {
  }

  lemma NoNames()
    ensures Words(ListText([])) == Names([]) == []
  {
  }

  /** Splitting the reply to `list` on spaces gives the names in order. */
  lemma {:induction false} CompletionRoundTrip(tags: seq<Tag>)
    requires forall i | 0 <= i < |tags| :: tags[i].name != "" && SpaceFree(tags[i].name)
    ensures Words(ListText(tags)) == Names(tags)
    decreases |tags|
  {
    hide Words, ListText, Names, SpaceFree;
    if tags == [] {
      NoNames();
    } else if |tags| == 1 {
      ListTextOne(tags);
      WordsSingle(tags[0].name);
    } else {
      ListTextCons(tags);
      WordsCons(tags[0].name, ListText(tags[1..]));
      CompletionRoundTrip(tags[1..]);
      NamesCons(tags);
    }
  }
}
