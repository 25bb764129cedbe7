/**
  Restarting the daemon: does the tag file reproduce the tags in memory?
 */
module Restart {
  import opened CString
  import opened TagFile
  import opened RoundTrip
  import opened Reload
  import opened Daemon
  import opened Isolation
  import opened CommandTable
  import opened ActionStack
  import opened TagMap

  /** The message rewrites the tag file. */
  predicate Saves(env: Env, s: State, m: Message) {
    !ChangeOf(env, s, m).Keep?
  }

  predicate AnySaves(env: Env, s: State, ms: seq<Message>)
    decreases |ms|
  {
    ms != [] && (Saves(env, s, ms[0]) || AnySaves(env, Step(env, s, ms[0]).state, ms[1..]))
  }

  /** Either nothing was saved and nothing changed, or the file is what was written last. */
  lemma {:induction false} RunFile(env: Env, s: State, ms: seq<Message>)
    ensures var s' := Run(env, s, ms).state;
      if AnySaves(env, s, ms) then s'.file == Write(s'.tags)
      else s'.file == s.file && s'.tags == s.tags
    ensures s.file == Write(s.tags) ==> Run(env, s, ms).state.file == Write(Run(env, s, ms).state.tags)
    decreases |ms|
  {
    if ms != [] {
      var s' := Step(env, s, ms[0]).state;
      StepChanges(env, s, ms[0]);
      RunFile(env, s', ms[1..]);
    }
  }

  /**
    Restart, exactly.  Start from any file content, and handle any run of messages
    that fit the buffer.  Reading the file then gives the tags in memory exactly when
    nothing was saved or the tags are restorable.
   */
  lemma RestartIff(env: Env, content: string, ms: seq<Message>)
    requires !env.valid("")
    requires AllWireSized(ms)
    ensures var s := Run(env, Start(env, content), ms).state;
      Read(s.file, env.valid) == s.tags
      <==> !AnySaves(env, Start(env, content), ms) || Restorable(s.tags, env.valid)
  {
    var s0 := Start(env, content);
    var s := Run(env, s0, ms).state;
    ReadShape(content, env.valid);
    RunTags(env, s0, ms);
    RunFile(env, s0, ms);
    ReloadIff(s.tags, env.valid);
  }

  /** Restorable, with room for the newline in every record. */
  predicate Safe(tags: seq<Tag>, valid: Validity) {
    forall i | 0 <= i < |tags| ::
      GoodName(tags[i].name) && valid(tags[i].path) && RecordLen(tags[i]) <= CHUNK_MAX
  }

  predicate AddsGoodName(m: Message) {
    Dispatch(m.cmd) == Some(Add) && KeyOf(m).Some? ==> GoodName(KeyOf(m).value)
  }

  lemma ChangedSafe(tags: seq<Tag>, c: Change, valid: Validity)
    requires Safe(tags, valid) && Possible(tags, c)
    requires c.Put? ==> Safe([c.tag], valid)
    ensures Safe(Changed(tags, c), valid)
  {
    match c
    case Keep =>
    case Put(t) => assert [t][0] == t;
    case Drop(name) =>
      var i := TagIndex(tags, name);
      var r := RemoveAt(tags, i);
      assert forall k | 0 <= k < |r| :: r[k] == tags[if k < i then k else k + 1];
  }

  lemma StepSafe(env: Env, s: State, m: Message)
    requires Safe(s.tags, env.valid) && AddsGoodName(m) && WireSized(m)
    ensures Safe(Step(env, s, m).state.tags, env.valid)
  {
    var c := ChangeOf(env, s, m);
    StepChanges(env, s, m);
    if c.Put? {
      PutIsAdd(env, s, m);
      assert KeyOf(m) == Some(c.tag.name);
    }
    ChangedSafe(s.tags, c, env.valid);
  }

  lemma {:induction false} RunSafe(env: Env, s: State, ms: seq<Message>)
    requires Safe(s.tags, env.valid) && CleanTags(s.tags)
    requires AllWireSized(ms) && forall i | 0 <= i < |ms| :: AddsGoodName(ms[i])
    ensures Safe(Run(env, s, ms).state.tags, env.valid)
    decreases |ms|
  {
    if ms != [] {
      StepSafe(env, s, ms[0]);
      StepTags(env, s, ms[0]);
      RunSafe(env, Step(env, s, ms[0]).state, ms[1..]);
    }
  }

  lemma SafeIsRestorable(tags: seq<Tag>, valid: Validity)
    requires Safe(tags, valid)
    ensures Restorable(tags, valid)
  {
  }

  /**
    Restart safety.  If the loaded tags are safe and only good names are added, then
    in every reachable state restarting gives the same tags, paths and order.
   */
  lemma {:induction false} RestartReproducesTags(env: Env, content: string, ms: seq<Message>)
    requires !env.valid("")
    requires Safe(Read(content, env.valid), env.valid)
    requires AllWireSized(ms) && forall i | 0 <= i < |ms| :: AddsGoodName(ms[i])
    ensures var s := Run(env, Start(env, content), ms).state;
      Start(env, s.file).tags == s.tags
  {
    ReadShape(content, env.valid);
    RunSafe(env, Start(env, content), ms);
    SafeIsRestorable(Run(env, Start(env, content), ms).state.tags, env.valid);
    RestartIff(env, content, ms);
  }

  /** A name that is empty or holds `=` is accepted and saved, but no restart finds it again. */
  lemma BadNameIsLost(env: Env, s: State, m: Message)
    requires CleanTags(s.tags) && Fits(s.tags) && WireSized(m) && !env.valid("")
    requires ChangeOf(env, s, m).Put? && !GoodName(ChangeOf(env, s, m).tag.name)
    ensures Start(env, Step(env, s, m).state.file).tags != Step(env, s, m).state.tags
  {
    var t := ChangeOf(env, s, m).tag;
    StepChanges(env, s, m);
    StepTags(env, s, m);
    var tags := PutTag(s.tags, t);
    assert tags[TagIndex(s.tags, t.name)] == t;
    ReloadIff(tags, env.valid);
  }

  /** For instance `add a=b /p`. */
  lemma EqualsSignIsLost(env: Env, s: State, m: Message)
    requires CleanTags(s.tags) && Fits(s.tags) && env.valid("/p") && !env.valid("")
    requires m.cmd == "add" && m.args == Some(AddArgs("a=b", "/p")) && StackOf(s.shells, m.pid).Some?
    ensures TextOf(Step(env, s, m).reply) == Some("OK\n")
    ensures Start(env, Step(env, s, m).state.file).tags != Step(env, s, m).state.tags
  {
    DispatchIff("add", 2);
    AddAccepts(env, s, m, "a=b", "/p");
    OkIffChanged(env, s, m);
    assert "a=b"[1] == '=';
    BadNameIsLost(env, s, m);
  }
}
