/**
  The shell function `nav`: its `[tag]` and `back` branches turn the action stack into
  an undo history of directories.

  A call of the client is one message to the daemon.  Any messages of other shells may
  come before each call: `Gaps` says which.  `cd` is a function of the working directory
  and its argument, fixed during a session.
 */
module NavScript {
  import opened CString
  import opened Decimal
  import opened TagFile
  import opened Daemon
  import opened CommandTable
  import opened Isolation
  import opened ActionStack
  import opened TagMap

  type Cd = (string, string) -> Option<string>

  /** What is fixed in a session: the daemon's environment, `cd`, and `$$`. */
  datatype Site = Site(env: Env, cd: Cd, pid: string) {
    function Pid(): int
      requires PidOf(pid).Some?
    {
      PidOf(pid).value
    }
  }

  /** The daemon's state and the working directory. */
  datatype World = World(state: State, cwd: string)

  datatype Said = Unreachable | Usage | NotFound | PushRefused | CdFailed | Moved | NoActions

  datatype Landed = Landed(world: World, said: Said)

  /** The messages of other shells before each client call of one command. */
  type Gap = seq<Message>

  datatype Gaps = Gaps(register: Gap, query: Gap, push: Gap)

  /** Command substitution drops trailing newlines. */
  function StripNewlines(s: string): string {
    if s != "" && s[|s| - 1] == '\n' then StripNewlines(s[..|s| - 1]) else s
  }

  /** What the client prints: the reply, if it is sent to the address the client bound. */
  function Captured(site: Site, reply: Option<Reply>): string {
    if reply.Some? && reply.value.to == ClientAddress(site.env.cacheDir, site.pid)
    then StripNewlines(reply.value.text)
    else ""
  }

  datatype Answer = Answer(state: State, text: string)

  function Call(site: Site, s: State, gap: Gap, m: Message): Answer {
    var o := Step(site.env, Run(site.env, s, gap).state, m);
    Answer(o.state, Captured(site, o.reply))
  }

  function RegisterCall(site: Site): (m: Message)
    requires PidOf(site.pid).Some?
    ensures Dispatch(m.cmd) == Some(Register) && m.pid == site.Pid()
  {
    DispatchIff("register", 0);
    Request(site.Pid(), "register", None)
  }

  function GetCall(site: Site, tag: string): (m: Message)
    requires PidOf(site.pid).Some? && NulFree(tag)
    ensures Dispatch(m.cmd) == Some(Get) && m.pid == site.Pid()
  {
    DispatchIff("get", 5);
    Request(site.Pid(), "get", Some(tag + " "))
  }

  function PushCall(site: Site, dir: string): (m: Message)
    requires PidOf(site.pid).Some? && NulFree(dir)
    ensures Dispatch(m.cmd) == Some(Push) && m.pid == site.Pid() && m.args == Some(dir + " ")
  {
    DispatchIff("push", 6);
    Request(site.Pid(), "push", Some(dir + " "))
  }

  /** The words that name another branch of `nav`. */
  const SUBCOMMANDS: set<string> := {"add", "delete", "show", "s", "actions", "a", "back", "b", "reset", "ar"}

  function ChangeDir(site: Site, w: World, dir: string): Landed {
    match site.cd(w.cwd, dir)
    case None => Landed(w, CdFailed)
    case Some(cwd) => Landed(w.(cwd := cwd), Moved)
  }

  /** Trimming does not see behind white space. */
  lemma TrimEnds(s: string, t: string)
    requires t != "" && (t[0] == ' ' || t[0] == '\n')
    ensures Trim(s + t) == Trim(s)
  {
    CSpanIs(s + t, {' ', '\n'}, CSpan(s, {' ', '\n'}));
  }

  lemma {:induction false} StripKeepsNulFree(s: string)
    ensures NulFree(s) ==> NulFree(StripNewlines(s))
    ensures StripNewlines(s) <= s
    ensures Trim(StripNewlines(s)) == Trim(s)
    ensures Plain(s) ==> StripNewlines(s) == s
  {
    if s != "" && s[|s| - 1] == '\n' {
      var t := s[..|s| - 1];
      StripKeepsNulFree(t);
      assert s == t + "\n";
      TrimEnds(t, "\n");
    }
    if Plain(s) && s != "" {
      assert s[|s| - 1] != '\n';
    }
  }

  /** Stripping takes off all newlines at the end, and nothing else. */
  lemma {:induction false} StripIff(s: string, r: string)
    ensures StripNewlines(s) == r <==>
      && r <= s && (forall k | |r| <= k < |s| :: s[k] == '\n') && (r != "" ==> r[|r| - 1] != '\n')
    decreases |s|
  {
    if s != "" && s[|s| - 1] == '\n' {
      StripIff(s[..|s| - 1], r);
    }
  }

  /** `nav [tag]`. */
  function Nav(site: Site, w: World, tag: string, gaps: Gaps): Landed
    requires PidOf(site.pid).Some? && NulFree(tag) && NulFree(w.cwd) && tag !in SUBCOMMANDS
  {
    var connected := Call(site, w.state, gaps.register, RegisterCall(site));
    if connected.text == "" then Landed(World(connected.state, w.cwd), Unreachable)
    else if tag == "" then Landed(World(connected.state, w.cwd), Usage)
    else
      var dir := Call(site, connected.state, gaps.query, GetCall(site, tag));
      if dir.text == "BAD" || dir.text == "" then Landed(World(dir.state, w.cwd), NotFound)
      else
        StripKeepsNulFree(w.cwd);
        var output := Call(site, dir.state, gaps.push, PushCall(site, StripNewlines(w.cwd)));
        if output.text != "OK" then Landed(World(output.state, w.cwd), PushRefused)
        else ChangeDir(site, World(output.state, w.cwd), dir.text)
  }

  /** `nav back`. */
  function Back(site: Site, w: World, gaps: Gaps): Landed
    requires PidOf(site.pid).Some?
  {
    var connected := Call(site, w.state, gaps.register, RegisterCall(site));
    if connected.text == "" then Landed(World(connected.state, w.cwd), Unreachable)
    else
      var dir := Call(site, connected.state, gaps.query, PopMessage(site.Pid()));
      if dir.text != "" && dir.text != "BAD" then ChangeDir(site, World(dir.state, w.cwd), dir.text)
      else Landed(World(dir.state, w.cwd), NoActions)
  }

  // One client call

  /** `$$` is written canonically, and the daemon is in a state it can reach. */
  predicate Ready(site: Site, s: State) {
    && CanonicalInt(site.pid)
    && ShellsOk(site.env, s.shells)
  }

  predicate Foreign(gap: Gap, pid: int) {
    forall i | 0 <= i < |gap| :: gap[i].pid != pid
  }

  predicate ForeignGaps(gaps: Gaps, pid: int) {
    Foreign(gaps.register, pid) && Foreign(gaps.query, pid) && Foreign(gaps.push, pid)
  }

  lemma {:induction false} ForeignKeeps(env: Env, s: State, gap: Gap, pid: int)
    requires ShellsOk(env, s.shells) && Foreign(gap, pid)
    ensures var s' := Run(env, s, gap).state;
      ShellsOk(env, s'.shells) && StackOf(s'.shells, pid) == StackOf(s.shells, pid)
    decreases |gap|
  {
    if gap != [] {
      StepIsLocal(env, s, gap[0], pid);
      StepKeepsShells(env, s, gap[0]);
      ForeignKeeps(env, Step(env, s, gap[0]).state, gap[1..], pid);
    }
  }

  /** What a call does to the caller's own stack, and what the caller gets to see. */
  lemma Called(site: Site, s: State, gap: Gap, m: Message)
    requires Ready(site, s) && PidOf(site.pid).Some? && Foreign(gap, site.Pid()) && m.pid == site.Pid()
    ensures var a := Call(site, s, gap, m);
      var r := LocalMessage(site.env.valid, StackOf(s.shells, site.Pid()), m);
      && Ready(site, a.state)
      && StackOf(a.state.shells, site.Pid()) == r.stack
      && (!IsTagMessage(m) ==> a.text == match r.text case None => "" case Some(t) => StripNewlines(t))
  {
    var env, pid := site.env, site.Pid();
    var s' := Run(env, s, gap).state;
    ForeignKeeps(env, s, gap, pid);
    StepIsLocal(env, s', m, pid);
    StepKeepsShells(env, s', m);
    ReplyGoesToSender(env, s', m);
    ReplyReachesClientIff(env.cacheDir, site.pid);
  }

  /** The caller's stack; registering comes with an empty one. */
  function ActionsOf(site: Site, s: State): seq<string>
    requires PidOf(site.pid).Some?
  {
    match StackOf(s.shells, site.Pid())
    case None => []
    case Some(actions) => actions
  }

  lemma StripReply(s: string)
    requires s == "" || s[|s| - 1] != '\n'
    ensures StripNewlines(s + "\n") == s
  {
    assert (s + "\n")[..|s|] == s;
  }

  lemma StripShort()
    ensures StripNewlines("OK\n") == "OK" && StripNewlines("BAD\n") == "BAD"
  {
    StripReply("OK");
    StripReply("BAD");
    assert "OK\n" == "OK" + "\n" && "BAD\n" == "BAD" + "\n";
  }

  /** Registering succeeds and keeps the stack. */
  lemma Registered(site: Site, s: State, gap: Gap)
    requires Ready(site, s) && PidOf(site.pid).Some? && Foreign(gap, site.Pid())
    ensures var a := Call(site, s, gap, RegisterCall(site));
      && Ready(site, a.state) && a.text == "OK"
      && StackOf(a.state.shells, site.Pid()) == Some(ActionsOf(site, s))
  {
    Called(site, s, gap, RegisterCall(site));
    StripShort();
  }

  lemma GetIsLocal(valid: Validity, stack: Option<seq<string>>, m: Message)
    requires Dispatch(m.cmd) == Some(Get)
    ensures LocalMessage(valid, stack, m).stack == stack
  {
    hide Dispatch;
  }

  /** Looking up a tag keeps the stack. */
  lemma Queried(site: Site, s: State, gap: Gap, tag: string)
    requires Ready(site, s) && PidOf(site.pid).Some? && Foreign(gap, site.Pid()) && NulFree(tag)
    ensures var a := Call(site, s, gap, GetCall(site, tag));
      && Ready(site, a.state)
      && StackOf(a.state.shells, site.Pid()) == StackOf(s.shells, site.Pid())
  {
    hide Call, Ready, LocalMessage, Dispatch, Foreign, PidOf, StackOf;
    GetIsLocal(site.env.valid, StackOf(s.shells, site.Pid()), GetCall(site, tag));
    Called(site, s, gap, GetCall(site, tag));
  }

  // The undo history

  function PushDir(actions: seq<string>, dir: string): seq<string> {
    if actions != [] && actions[0] == dir then actions else [dir] + actions
  }

  /** What pushing comes to on the caller's own stack. */
  lemma PushLocal(valid: Validity, actions: seq<string>, m: Message, dir: string)
    requires Dispatch(m.cmd) == Some(Push) && m.args == Some(StripNewlines(dir) + " ")
    ensures LocalMessage(valid, Some(actions), m) ==
      if valid(Trim(dir)) then LocalResult(Some(PushDir(actions, Trim(dir))), Some("OK\n"))
      else LocalResult(Some(actions), Some("BAD\n"))
  {
    StripKeepsNulFree(dir);
    TrimEnds(StripNewlines(dir), " ");
    assert PushAction(valid, actions, m.args) == OnStack(valid, actions, Push, m.args);
  }

  lemma PushReplies(site: Site, s: State, gap: Gap, dir: string)
    requires Ready(site, s) && PidOf(site.pid).Some? && Foreign(gap, site.Pid()) && NulFree(dir)
    requires StackOf(s.shells, site.Pid()).Some?
    ensures NulFree(StripNewlines(dir))
    ensures var a := Call(site, s, gap, PushCall(site, StripNewlines(dir)));
      var ok := site.env.valid(Trim(dir));
      && Ready(site, a.state) && a.text == (if ok then "OK" else "BAD")
      && StackOf(a.state.shells, site.Pid()) == Some(
           if ok then PushDir(ActionsOf(site, s), Trim(dir)) else ActionsOf(site, s))
  {
    hide Call, Ready, LocalMessage, StripNewlines, Trim, Dispatch, Foreign, PidOf;
    StripKeepsNulFree(dir);
    var m := PushCall(site, StripNewlines(dir));
    PushLocal(site.env.valid, ActionsOf(site, s), m, dir);
    Called(site, s, gap, m);
    StripShort();
  }

  /** Whether or not the directory changes, `nav [tag]` pushes at most the one it is in. */
  lemma NavPushes(site: Site, w: World, tag: string, gaps: Gaps)
    requires Ready(site, w.state) && PidOf(site.pid).Some? && ForeignGaps(gaps, site.Pid())
    requires NulFree(tag) && NulFree(w.cwd) && tag !in SUBCOMMANDS
    ensures var r := Nav(site, w, tag, gaps);
      && Ready(site, r.world.state)
      && r.said != Unreachable
      && StackOf(r.world.state.shells, site.Pid()) == Some(
           if r.said == Moved || r.said == CdFailed then PushDir(ActionsOf(site, w.state), Trim(w.cwd))
           else ActionsOf(site, w.state))
      && (r.said == Moved || r.said == CdFailed ==> site.env.valid(Trim(w.cwd)))
      && (r.said == Moved || r.world.cwd == w.cwd)
  {
    hide Call, Ready, LocalMessage, StripNewlines, Trim, Dispatch, Foreign, PidOf, StackOf, PushDir;
    Registered(site, w.state, gaps.register);
    var a := Call(site, w.state, gaps.register, RegisterCall(site));
    assert "OK" != "" && "OK"[0] != "BAD"[0];
    if tag != "" {
      Queried(site, a.state, gaps.query, tag);
      var b := Call(site, a.state, gaps.query, GetCall(site, tag));
      StripKeepsNulFree(w.cwd);
      if b.text != "BAD" && b.text != "" {
        PushReplies(site, b.state, gaps.push, w.cwd);
      }
    }
  }

  lemma Popped(site: Site, s: State, gap: Gap)
    requires Ready(site, s) && PidOf(site.pid).Some? && Foreign(gap, site.Pid())
    requires StackOf(s.shells, site.Pid()).Some?
    ensures var a := Call(site, s, gap, PopMessage(site.Pid())); var actions := ActionsOf(site, s);
      && Ready(site, a.state)
      && StackOf(a.state.shells, site.Pid()) == Some(if actions == [] then [] else actions[1..])
      && a.text == if actions == [] then "BAD" else StripNewlines(actions[0] + "\n")
  {
    hide Run, Step, StripNewlines, ShellsOk, PidOf;
    var m, actions := PopMessage(site.Pid()), ActionsOf(site, s);
    Called(site, s, gap, m);
    StripShort();
    assert OnStack(site.env.valid, actions, Pop, m.args) == PopAction(actions);
    if actions != [] {
      PopRemovesHead(actions);
    }
  }

  /** An absolute path without white space to which `cd` returns from anywhere. */
  ghost predicate Directory(site: Site, d: string) {
    d != "" && d[0] == '/' && Plain(d) && forall from :: site.cd(from, d) == Some(d)
  }

  /** Whatever becomes of the `cd`, `back` takes the top off the stack. */
  lemma BackLeaves(site: Site, w: World, gaps: Gaps)
    requires Ready(site, w.state) && PidOf(site.pid).Some? && ForeignGaps(gaps, site.Pid())
    ensures var r := Back(site, w, gaps); var actions := ActionsOf(site, w.state);
      && Ready(site, r.world.state)
      && ActionsOf(site, r.world.state) == if actions == [] then [] else actions[1..]
  {
    hide Call, Ready, LocalMessage, StripNewlines, Dispatch, Foreign, PidOf, StackOf;
    Registered(site, w.state, gaps.register);
    assert "OK" != "";
    Popped(site, Call(site, w.state, gaps.register, RegisterCall(site)).state, gaps.query);
  }

  /** `back` pops the top and changes to it; on an empty stack it does neither. */
  lemma BackPops(site: Site, w: World, gaps: Gaps)
    requires Ready(site, w.state) && PidOf(site.pid).Some? && ForeignGaps(gaps, site.Pid())
    requires ActionsOf(site, w.state) != [] ==> Directory(site, ActionsOf(site, w.state)[0])
    ensures var r := Back(site, w, gaps); var actions := ActionsOf(site, w.state);
      && Ready(site, r.world.state)
      && if actions == [] then r.said == NoActions && ActionsOf(site, r.world.state) == [] && r.world.cwd == w.cwd
         else r.said == Moved && ActionsOf(site, r.world.state) == actions[1..] && r.world.cwd == actions[0]
  {
    hide Call, Ready, LocalMessage, StripNewlines, Dispatch, Foreign, PidOf, StackOf;
    Registered(site, w.state, gaps.register);
    var a := Call(site, w.state, gaps.register, RegisterCall(site));
    assert "OK" != "";
    Popped(site, a.state, gaps.query);
    var b := Call(site, a.state, gaps.query, PopMessage(site.Pid()));
    if ActionsOf(site, w.state) != [] {
      var d := ActionsOf(site, w.state)[0];
      assert d[|d| - 1] != '\n';
      StripReply(d);
      assert "BAD"[0] != d[0];
    }
  }

  /**
    `back` exactly: what it pops is where it tries to go, and where `cd` fails it says so
    and stays.  An entry that reads like a refusal is taken for one, and is gone.
   */
  lemma BackTries(site: Site, w: World, gaps: Gaps)
    requires Ready(site, w.state) && PidOf(site.pid).Some? && ForeignGaps(gaps, site.Pid())
    requires ActionsOf(site, w.state) != [] && Plain(ActionsOf(site, w.state)[0])
    ensures var r := Back(site, w, gaps); var top := ActionsOf(site, w.state)[0];
      && ActionsOf(site, r.world.state) == ActionsOf(site, w.state)[1..]
      && if top == "" || top == "BAD" then r.said == NoActions && r.world.cwd == w.cwd
         else match site.cd(w.cwd, top)
           case None => r.said == CdFailed && r.world.cwd == w.cwd
           case Some(d) => r.said == Moved && r.world.cwd == d
  {
    hide Call, Ready, LocalMessage, StripNewlines, Dispatch, Foreign, PidOf, StackOf;
    Registered(site, w.state, gaps.register);
    assert "OK" != "";
    Popped(site, Call(site, w.state, gaps.register, RegisterCall(site)).state, gaps.query);
    StripReply(ActionsOf(site, w.state)[0]);
  }

  lemma RegisterAnswers(env: Env, s: State, m: Message)
    requires ShellsOk(env, s.shells) && Dispatch(m.cmd) == Some(Register)
    ensures Step(env, s, m).reply == Some(Reply(DaemonAddress(env.cacheDir, m.pid), "OK\n"))
  {
    hide Dispatch, DaemonAddress;
  }

  /**
    Whom the daemon does not reach: `nav` and `nav back` say that it is unreachable, and
    stay, exactly when the daemon answers another address than the one the client bound.
   */
  lemma UnreachableIff(site: Site, w: World, tag: string, gaps: Gaps)
    requires ShellsOk(site.env, w.state.shells) && PidOf(site.pid).Some?
    requires NulFree(tag) && NulFree(w.cwd) && tag !in SUBCOMMANDS
    ensures var reached := CanonicalInt(site.pid) || PathsClash(site.env.cacheDir, PrintInt(site.Pid()), site.pid);
      && (Nav(site, w, tag, gaps).said == Unreachable <==> !reached)
      && (Back(site, w, gaps).said == Unreachable <==> !reached)
      && (!reached ==> Nav(site, w, tag, gaps).world.cwd == w.cwd && Back(site, w, gaps).world.cwd == w.cwd)
  {
    hide PidOf, Step, Run, ShellsOk, CanonicalInt, PathsClash, PrintInt, ClientAddress, DaemonAddress, StripNewlines;
    RunKeepsShells(site.env, w.state, gaps.register);
    RegisterAnswers(site.env, Run(site.env, w.state, gaps.register).state, RegisterCall(site));
    ReplyReachesClientIff(site.env.cacheDir, site.pid);
    StripShort();
  }

  // Where `nav [tag]` goes

  /** The name is in no message of these that could change it. */
  predicate Untouched(gap: Gap, name: string) {
    forall i | 0 <= i < |gap| :: Target(gap[i]) != Some(name)
  }

  lemma CallKeepsName(site: Site, s: State, gap: Gap, m: Message, name: string)
    requires CleanTags(s.tags) && Untouched(gap, name) && Target(m) != Some(name)
    ensures var s' := Call(site, s, gap, m).state;
      CleanTags(s'.tags) && Lookup(s'.tags, name) == Lookup(s.tags, name)
  {
    hide Lookup, Step, Target;
    var s1 := Run(site.env, s, gap).state;
    RunTags(site.env, s, gap);
    RunKeepsOther(site.env, s, gap, name);
    StepTags(site.env, s1, m);
    StepKeepsOther(site.env, s1, m, name);
  }

  lemma PathStrips(tags: seq<Tag>, name: string)
    requires CleanTags(tags) && Lookup(tags, name).Some?
    ensures StripNewlines(Lookup(tags, name).value + "\n") == Lookup(tags, name).value
  {
    var path := Lookup(tags, name).value;
    assert Plain(path);
    StripReply(path);
  }

  lemma CleanIsDistinct(tags: seq<Tag>)
    requires CleanTags(tags)
    ensures DistinctNames(tags)
  {
  }

  /** The path of the tag's first word, if there is a word and a tag of that name. */
  function PathOf(site: Site, s: State, tag: string): Option<string>
    requires PidOf(site.pid).Some? && NulFree(tag)
  {
    var key := KeyOf(GetCall(site, tag));
    if key.None? then None else Lookup(s.tags, key.value)
  }

  /** No other shell's message could change that tag. */
  predicate TagUntouched(site: Site, gap: Gap, tag: string)
    requires PidOf(site.pid).Some? && NulFree(tag)
  {
    var key := KeyOf(GetCall(site, tag));
    key.Some? ==> Untouched(gap, key.value)
  }

  lemma BlankIsSilent(env: Env, s: State, m: Message)
    requires Dispatch(m.cmd) == Some(Get) && KeyOf(m).None?
    ensures Step(env, s, m).reply == None
  {
    hide Words, Trim;
  }

  /** What a look-up prints: the path, BAD, or nothing for a blank tag. */
  lemma QueryReplies(site: Site, s: State, gap: Gap, tag: string)
    requires Ready(site, s) && PidOf(site.pid).Some? && Foreign(gap, site.Pid()) && NulFree(tag)
    requires StackOf(s.shells, site.Pid()).Some? && CleanTags(s.tags) && TagUntouched(site, gap, tag)
    ensures Call(site, s, gap, GetCall(site, tag)).text ==
      if KeyOf(GetCall(site, tag)).None? then ""
      else match PathOf(site, s, tag) case None => "BAD" case Some(path) => path
  {
    hide Step, Dispatch, CleanTags, Lookup, Plain, StripNewlines, PidOf, KeyOf, ClientAddress, DaemonAddress;
    var env, m := site.env, GetCall(site, tag);
    var s' := Run(env, s, gap).state;
    ForeignKeeps(env, s, gap, site.Pid());
    CleanIsDistinct(s.tags);
    RunTags(env, s, gap);
    ReplyGoesToSender(env, s', m);
    ReplyReachesClientIff(env.cacheDir, site.pid);
    StripShort();
    if KeyOf(m).None? {
      BlankIsSilent(env, s', m);
    } else {
      var name := KeyOf(m).value;
      RunKeepsOther(env, s, gap, name);
      GetReplies(env, s', m);
      if Lookup(s'.tags, name).Some? { PathStrips(s'.tags, name); }
    }
  }

  lemma NoTarget(m: Message, name: string)
    requires Dispatch(m.cmd) == Some(Register)
    ensures Target(m) != Some(name)
  {
  }

  lemma CallKeepsClean(site: Site, s: State, gap: Gap, m: Message)
    requires CleanTags(s.tags)
    ensures CleanTags(Call(site, s, gap, m).state.tags)
  {
    hide CleanTags, Step;
    RunTags(site.env, s, gap);
    StepTags(site.env, Run(site.env, s, gap).state, m);
  }

  /** Registering keeps every tag. */
  lemma RegisterKeepsTag(site: Site, s: State, gap: Gap, tag: string)
    requires PidOf(site.pid).Some? && NulFree(tag) && CleanTags(s.tags) && TagUntouched(site, gap, tag)
    ensures var a := Call(site, s, gap, RegisterCall(site));
      CleanTags(a.state.tags) && PathOf(site, a.state, tag) == PathOf(site, s, tag)
  {
    hide Call, CleanTags, Lookup, Untouched, Target, KeyOf;
    var key := KeyOf(GetCall(site, tag));
    if key.Some? {
      NoTarget(RegisterCall(site), key.value);
      CallKeepsName(site, s, gap, RegisterCall(site), key.value);
    } else {
      CallKeepsClean(site, s, gap, RegisterCall(site));
    }
  }

  lemma BlankHasNoPath(site: Site, s: State, tag: string)
    requires PidOf(site.pid).Some? && NulFree(tag) && KeyOf(GetCall(site, tag)).None?
    ensures PathOf(site, s, tag).None?
  {
  }

  /**
    Where it goes.  If no other shell changes that tag meanwhile, `nav [tag]` changes to
    the path of the tag, provided that the directory left is one the daemon can find and
    that `cd` succeeds; otherwise it says which of these failed, and stays.
   */
  lemma NavGoes(site: Site, w: World, tag: string, gaps: Gaps)
    requires Ready(site, w.state) && PidOf(site.pid).Some? && ForeignGaps(gaps, site.Pid())
    requires NulFree(tag) && NulFree(w.cwd) && tag !in SUBCOMMANDS && CleanTags(w.state.tags)
    requires TagUntouched(site, gaps.register, tag) && TagUntouched(site, gaps.query, tag)
    ensures var r := Nav(site, w, tag, gaps); var path := PathOf(site, w.state, tag);
      if tag == "" then r.said == Usage
      else if path.None? || path.value == "BAD" || path.value == "" then r.said == NotFound
      else if !site.env.valid(Trim(w.cwd)) then r.said == PushRefused
      else match site.cd(w.cwd, path.value)
        case None => r.said == CdFailed
        case Some(d) => r.said == Moved && r.world.cwd == d
  {
    hide Call, Ready, StripNewlines, Trim, Dispatch, Foreign, PidOf, StackOf;
    hide CleanTags, PathOf, TagUntouched, KeyOf;
    Registered(site, w.state, gaps.register);
    var a := Call(site, w.state, gaps.register, RegisterCall(site));
    assert "OK"[0] != "BAD"[0];
    if tag != "" {
      RegisterKeepsTag(site, w.state, gaps.register, tag);
      QueryReplies(site, a.state, gaps.query, tag);
      if KeyOf(GetCall(site, tag)).None? { BlankHasNoPath(site, a.state, tag); }
      Queried(site, a.state, gaps.query, tag);
      var b := Call(site, a.state, gaps.query, GetCall(site, tag));
      if b.text != "BAD" && b.text != "" {
        StripKeepsNulFree(w.cwd);
        PushReplies(site, b.state, gaps.push, w.cwd);
      }
    }
  }

  /** A tag without white space is looked up as it is. */
  lemma PlainTag(site: Site, s: State, tag: string)
    requires PidOf(site.pid).Some? && NulFree(tag) && tag != "" && Plain(tag)
    ensures KeyOf(GetCall(site, tag)) == Some(tag) && PathOf(site, s, tag) == Lookup(s.tags, tag)
  {
    assert tag + " " == tag + " " + "";
    WordsCons(tag, "");
    TrimIsPlain(tag);
  }

  // Walking away and back

  /** `nav [tag]` with the messages of other shells around its calls. */
  datatype Leg = Leg(tag: string, gaps: Gaps)

  predicate Legs(site: Site, legs: seq<Leg>) {
    PidOf(site.pid).Some? && forall i | 0 <= i < |legs| ::
      NulFree(legs[i].tag) && legs[i].tag !in SUBCOMMANDS && ForeignGaps(legs[i].gaps, site.Pid())
  }

  /** The world after some legs, if they all change the directory. */
  function Walk(site: Site, w: World, legs: seq<Leg>): Option<World>
    requires Legs(site, legs)
    decreases |legs|
  {
    if legs == [] then Some(w)
    else
      var n := |legs| - 1;
      match Walk(site, w, legs[..n])
      case None => None
      case Some(v) =>
        if !NulFree(v.cwd) then None
        else
          var r := Nav(site, v, legs[n].tag, legs[n].gaps);
          if r.said == Moved then Some(r.world) else None
  }

  /** The directories that a successful walk leaves, in order. */
  function Left(site: Site, w: World, legs: seq<Leg>): seq<string>
    requires Legs(site, legs)
    decreases |legs|
  {
    if legs == [] || Walk(site, w, legs).None? then []
    else
      var n := |legs| - 1;
      Left(site, w, legs[..n]) + [Walk(site, w, legs[..n]).value.cwd]
  }

  /** Consecutive repeats reduced to one. */
  function Collapse(ds: seq<string>): seq<string>
    decreases |ds|
  {
    var n := |ds|;
    if n < 2 then ds
    else if ds[n - 1] == ds[n - 2] then Collapse(ds[..n - 1])
    else Collapse(ds[..n - 1]) + [ds[n - 1]]
  }

  function Reverse(s: seq<string>): seq<string> {
    if s == [] then [] else Reverse(s[1..]) + [s[0]]
  }

  lemma {:induction false} CollapseEnds(ds: seq<string>)
    requires ds != []
    ensures Collapse(ds) != [] && Collapse(ds)[0] == ds[0]
    ensures Collapse(ds)[|Collapse(ds)| - 1] == ds[|ds| - 1]
    decreases |ds|
  {
    if |ds| > 1 { CollapseEnds(ds[..|ds| - 1]); }
  }

  lemma {:induction false} ReverseEnds(s: seq<string>)
    requires s != []
    ensures |Reverse(s)| == |s| && Reverse(s)[|s| - 1] == s[0] && Reverse(s)[0] == s[|s| - 1]
  {
    if |s| > 1 { ReverseEnds(s[1..]); }
  }

  lemma PushCollapses(actions: seq<string>, ds: seq<string>, d: string)
    requires Reverse(actions) == Collapse(ds)
    ensures Reverse(PushDir(actions, d)) == Collapse(ds + [d])
  {
    var all := ds + [d];
    assert all[..|ds|] == ds;
    assert ([d] + actions)[1..] == actions;
    if ds == [] {
      assert actions == [] by { if actions != [] { ReverseEnds(actions); } }
    } else {
      CollapseEnds(ds);
      assert actions != [];
      ReverseEnds(actions);
      assert actions[0] == ds[|ds| - 1];
    }
  }

  /** The directories as the daemon stores them, cut at white space. */
  function Trims(ds: seq<string>): seq<string> {
    seq(|ds|, i requires 0 <= i < |ds| => Trim(ds[i]))
  }

  lemma TrimsSnoc(ds: seq<string>, d: string)
    ensures Trims(ds + [d]) == Trims(ds) + [Trim(d)]
  {
  }

  lemma PushedActions(site: Site, s: State, actions: seq<string>)
    requires PidOf(site.pid).Some? && StackOf(s.shells, site.Pid()) == Some(actions)
    ensures ActionsOf(site, s) == actions
  {
  }

  /** The last leg pushes the directory that it leaves. */
  lemma UndoLeg(site: Site, w: World, legs: seq<Leg>)
    requires Legs(site, legs) && legs != [] && Walk(site, w, legs).Some?
    requires var u := Walk(site, w, legs[..|legs| - 1]).value;
      && Ready(site, u.state)
      && Reverse(ActionsOf(site, u.state)) == Collapse(Trims(Left(site, w, legs[..|legs| - 1])))
    ensures var v := Walk(site, w, legs).value;
      Ready(site, v.state) && Reverse(ActionsOf(site, v.state)) == Collapse(Trims(Left(site, w, legs)))
  {
    hide Ready, Nav, PushDir, Trim, Collapse, Reverse, ForeignGaps, ActionsOf, Trims, StackOf;
    var n := |legs| - 1;
    var u := Walk(site, w, legs[..n]).value;
    NavPushes(site, u, legs[n].tag, legs[n].gaps);
    PushedActions(site, Walk(site, w, legs).value.state, PushDir(ActionsOf(site, u.state), Trim(u.cwd)));
    TrimsSnoc(Left(site, w, legs[..n]), u.cwd);
    PushCollapses(ActionsOf(site, u.state), Trims(Left(site, w, legs[..n])), Trim(u.cwd));
  }

  /**
    Undo walk, out.  From an empty stack, after any number of successful legs, with any
    messages of other shells in between, the stack read from its oldest entry is the
    sequence of directories left, cut at white space, consecutive repeats collapsed.
   */
  lemma {:induction false} UndoWalk(site: Site, w: World, legs: seq<Leg>)
    requires Legs(site, legs) && Ready(site, w.state) && ActionsOf(site, w.state) == []
    requires Walk(site, w, legs).Some?
    ensures var v := Walk(site, w, legs).value;
      Ready(site, v.state) && Reverse(ActionsOf(site, v.state)) == Collapse(Trims(Left(site, w, legs)))
    decreases |legs|
  {
    if legs == [] {
      assert Trims([]) == [];
    } else {
      hide Ready, Nav, Trim, Collapse, Reverse, ForeignGaps, ActionsOf, Trims;
      UndoWalk(site, w, legs[..|legs| - 1]);
      UndoLeg(site, w, legs);
    }
  }

  lemma {:induction false} InCollapseToo(ds: seq<string>, d: string)
    requires d in ds
    ensures d in Collapse(ds)
    decreases |ds|
  {
    var n := |ds|;
    if n > 1 {
      if d in ds[..n - 1] {
        InCollapseToo(ds[..n - 1], d);
      } else {
        assert d == ds[n - 1];
      }
    }
  }

  lemma {:induction false} InCollapse(ds: seq<string>, d: string)
    requires d in Collapse(ds)
    ensures d in ds
    decreases |ds|
  {
    if |ds| > 1 && d != ds[|ds| - 1] { InCollapse(ds[..|ds| - 1], d); }
  }

  /** Cutting at white space loses an element exactly when one holds white space. */
  lemma {:induction false} CollapseTrimsIff(ds: seq<string>)
    ensures Collapse(Trims(ds)) == Collapse(ds) <==> forall i | 0 <= i < |ds| :: Plain(ds[i])
    decreases |ds|
  {
    if forall i | 0 <= i < |ds| :: Plain(ds[i]) {
      forall i | 0 <= i < |ds| ensures Trim(ds[i]) == ds[i] {
        TrimIsPlain(ds[i]);
      }
      assert Trims(ds) == ds;
    } else {
      var i :| 0 <= i < |ds| && !Plain(ds[i]);
      InCollapseToo(ds, ds[i]);
      if Collapse(Trims(ds)) == Collapse(ds) {
        InCollapse(Trims(ds), ds[i]);
        var k :| 0 <= k < |ds| && Trims(ds)[k] == ds[i];
        TrimIsPlain(ds[k]);
        assert false;
      }
    }
  }

  /**
    So it is the sequence of directories left, exactly when none of them holds white
    space.
   */
  lemma UndoWalkIff(site: Site, w: World, legs: seq<Leg>)
    requires Legs(site, legs) && Ready(site, w.state) && ActionsOf(site, w.state) == []
    requires Walk(site, w, legs).Some?
    ensures var left := Left(site, w, legs);
      Reverse(ActionsOf(site, Walk(site, w, legs).value.state)) == Collapse(left)
      <==> forall i | 0 <= i < |left| :: Plain(left[i])
  {
    UndoWalk(site, w, legs);
    CollapseTrimsIff(Left(site, w, legs));
  }

  /** Repeated `back`. */
  function Backs(site: Site, w: World, gaps: seq<Gaps>): World
    requires PidOf(site.pid).Some?
    decreases |gaps|
  {
    if gaps == [] then w else Backs(site, Back(site, w, gaps[0]).world, gaps[1..])
  }

  predicate AllForeign(site: Site, gaps: seq<Gaps>)
    requires PidOf(site.pid).Some?
  {
    forall i | 0 <= i < |gaps| :: ForeignGaps(gaps[i], site.Pid())
  }

  /** Going back as often as there are actions ends in the oldest one, if `cd` can go there. */
  lemma {:induction false} BacksToOldest(site: Site, w: World, gaps: seq<Gaps>)
    requires Ready(site, w.state) && PidOf(site.pid).Some? && AllForeign(site, gaps)
    requires var actions := ActionsOf(site, w.state);
      |gaps| == |actions| > 0 && Directory(site, actions[|actions| - 1])
    ensures var v := Backs(site, w, gaps); var actions := ActionsOf(site, w.state);
      && Ready(site, v.state) && ActionsOf(site, v.state) == []
      && v.cwd == actions[|actions| - 1]
    decreases |gaps|
  {
    hide Back, Ready, Directory, ActionsOf, ForeignGaps;
    var v := Back(site, w, gaps[0]).world;
    var rest := gaps[1..];
    if rest == [] {
      BackPops(site, w, gaps[0]);
    } else {
      BackLeaves(site, w, gaps[0]);
      BacksToOldest(site, v, rest);
    }
  }

  lemma {:induction false} LeftFirst(site: Site, w: World, legs: seq<Leg>)
    requires Legs(site, legs) && Walk(site, w, legs).Some? && legs != []
    ensures Left(site, w, legs) != [] && Left(site, w, legs)[0] == w.cwd
    decreases |legs|
  {
    if |legs| > 1 { LeftFirst(site, w, legs[..|legs| - 1]); }
  }

  lemma {:induction false} ReverseLength(s: seq<string>)
    ensures |Reverse(s)| == |s|
  {
    if s != [] { ReverseLength(s[1..]); }
  }

  /**
    Undo walk, there and back.  Repeating `back` until the stack is empty ends in the
    directory the walk started from, cut at white space, if `cd` can still go there,
    whatever has become of the others; and one more `back` stays there.  It is the
    directory itself exactly when that holds no white space.
   */
  lemma UndoWalkReturns(site: Site, w: World, legs: seq<Leg>, gaps: seq<Gaps>, last: Gaps)
    requires Legs(site, legs) && Ready(site, w.state) && ActionsOf(site, w.state) == []
    requires Walk(site, w, legs).Some? && legs != []
    requires Directory(site, Trim(w.cwd))
    requires |gaps| == |Collapse(Trims(Left(site, w, legs)))|
    requires AllForeign(site, gaps) && ForeignGaps(last, site.Pid())
    ensures var v := Backs(site, Walk(site, w, legs).value, gaps); var r := Back(site, v, last);
      && v.cwd == Trim(w.cwd) && r.world.cwd == v.cwd && r.said == NoActions
      && (v.cwd == w.cwd <==> Plain(w.cwd))
  {
    hide Directory, Back, Ready, Nav, ForeignGaps, ActionsOf, StackOf;
    UndoWalk(site, w, legs);
    var u, ds := Walk(site, w, legs).value, Left(site, w, legs);
    var actions := ActionsOf(site, u.state);
    LeftFirst(site, w, legs);
    CollapseEnds(Trims(ds));
    ReverseLength(actions);
    ReverseEnds(actions);
    BacksToOldest(site, u, gaps);
    BackPops(site, Backs(site, u, gaps), last);
    TrimIsPlain(w.cwd);
  }

  /**
    One `nav` and one `back`.  The directory comes back exactly when its name is free of
    white space, which the daemon cuts off; the stack, exactly when the directory was
    not already on top of it.
   */
  lemma NavThenBack(site: Site, w: World, tag: string, there: Gaps, again: Gaps)
    requires Ready(site, w.state) && PidOf(site.pid).Some?
    requires ForeignGaps(there, site.Pid()) && ForeignGaps(again, site.Pid())
    requires NulFree(tag) && NulFree(w.cwd) && tag !in SUBCOMMANDS
    requires Nav(site, w, tag, there).said == Moved && Directory(site, Trim(w.cwd))
    ensures var r := Back(site, Nav(site, w, tag, there).world, again); var before := ActionsOf(site, w.state);
      && r.said == Moved
      && (r.world.cwd == w.cwd <==> Plain(w.cwd))
      && (ActionsOf(site, r.world.state) == before <==> before == [] || before[0] != Trim(w.cwd))
  {
    NavPushes(site, w, tag, there);
    TrimIsPlain(w.cwd);
    var v := Nav(site, w, tag, there).world;
    BackPops(site, v, again);
    var before := ActionsOf(site, w.state);
    if before != [] && before[0] == Trim(w.cwd) {
      assert |before[1..]| != |before|;
    } else {
      assert ([Trim(w.cwd)] + before)[1..] == before;
    }
  }

  lemma SpaceText()
    ensures Trim("/a b") == "/a" && Plain("/a") && "/p" != "BAD" && "/p" != ""
  {
    assert "/a b" == "/a" + " b";
    TrimIsPlain("/a");
    TrimEnds("/a", " b");
    assert "/p"[0] != "BAD"[0];
  }

  /** For instance, a walk out of `/a b` comes back to `/a`. */
  lemma SpaceIsCut(site: Site, w: World, tag: string, there: Gaps, again: Gaps)
    requires Ready(site, w.state) && PidOf(site.pid).Some?
    requires ForeignGaps(there, site.Pid()) && ForeignGaps(again, site.Pid())
    requires tag != "" && Plain(tag) && NulFree(tag) && NulFree(w.cwd) && tag !in SUBCOMMANDS
    requires Untouched(there.register, tag) && Untouched(there.query, tag)
    requires CleanTags(w.state.tags) && Lookup(w.state.tags, tag) == Some("/p")
    requires w.cwd == "/a b" && site.env.valid("/a") && site.cd("/a b", "/p") == Some("/p")
    requires forall from :: site.cd(from, "/a") == Some("/a")
    ensures var v := Nav(site, w, tag, there);
      v.said == Moved && v.world.cwd == "/p" && Back(site, v.world, again).world.cwd == "/a"
  {
    SpaceText();
    PlainTag(site, w.state, tag);
    hide Nav, Back, Trim, Ready, PidOf, Lookup, ForeignGaps, PathOf, KeyOf, CleanTags, ActionsOf, StackOf, Untouched;
    NavGoes(site, w, tag, there);
    NavPushes(site, w, tag, there);
    var v := Nav(site, w, tag, there).world;
    PushedActions(site, v.state, PushDir(ActionsOf(site, w.state), "/a"));
    BackPops(site, v, again);
  }
}
