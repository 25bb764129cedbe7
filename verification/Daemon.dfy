/**
  The daemon as a state machine on values: one message is one step.

  The state is the ordered list of shells with their action stacks, the ordered list
  of tags, and the content of the tag file.  `Commands` proves that the handlers, which
  work in place on linked lists, take exactly these steps.
 */
module Daemon {
  import opened CString
  import opened Decimal
  import opened TagFile

  datatype Shell = Shell(pid: int, addr: string, actions: seq<string>)

  datatype State = State(shells: seq<Shell>, tags: seq<Tag>, file: string)

  /** What is fixed during a run: which paths exist, and where the sockets live. */
  datatype Env = Env(valid: Validity, cacheDir: string)

  datatype Command =
    | Register | Unregister | Add | Delete | Show | Get
    | Push | Pop | Actions | List | Reset

  datatype Entry = Entry(name: string, command: Command)

  const COMMAND_TABLE: seq<Entry> := [
    Entry("register", Register), Entry("unregister", Unregister),
    Entry("add", Add), Entry("delete", Delete),
    Entry("show", Show), Entry("get", Get),
    Entry("push", Push), Entry("pop", Pop),
    Entry("actions", Actions), Entry("list", List),
    Entry("reset", Reset)
  ]

  datatype Request = Request(pid: int, cmd: string, args: Option<string>)

  predicate NeedsArgs(c: Command) {
    c == Add || c == Delete || c == Get
  }

  /** The first table entry from `i` on whose name starts `cmd` (`strncmp`). */
  function DispatchFrom(cmd: string, i: nat): Option<Command>
    requires i <= |COMMAND_TABLE|
    decreases |COMMAND_TABLE| - i
  {
    if i == |COMMAND_TABLE| then None
    else if COMMAND_TABLE[i].name <= cmd then Some(COMMAND_TABLE[i].command)
    else DispatchFrom(cmd, i + 1)
  }

  function Dispatch(cmd: string): Option<Command> {
    DispatchFrom(cmd, 0)
  }

  /** `add`, `delete` and `get` dereference their arguments; C strings hold no NUL. */
  predicate Defined(r: Request) {
    && (Dispatch(r.cmd).Some? && NeedsArgs(Dispatch(r.cmd).value) ==> r.args.Some?)
    && (r.args.Some? ==> NulFree(r.args.value))
  }

  type Message = r: Request | Defined(r) witness Request(0, "", None)

  datatype Reply = Reply(to: string, text: string)

  datatype Outcome = Outcome(state: State, reply: Option<Reply>)

  // Lookups

  /** The first shell with that pid, or the number of shells. */
  function ShellIndex(shells: seq<Shell>, pid: int): (i: nat)
    ensures i <= |shells|
    ensures forall k | 0 <= k < i :: shells[k].pid != pid
    ensures i < |shells| ==> shells[i].pid == pid
  {
    if shells == [] || shells[0].pid == pid then 0 else 1 + ShellIndex(shells[1..], pid)
  }

  /** The first action with that path, or the number of actions. */
  function PathIndex(actions: seq<string>, path: string): (i: nat)
    ensures i <= |actions|
    ensures forall k | 0 <= k < i :: actions[k] != path
    ensures i < |actions| ==> actions[i] == path
  {
    if actions == [] || actions[0] == path then 0 else 1 + PathIndex(actions[1..], path)
  }

  function RemoveAt<T>(s: seq<T>, i: nat): seq<T>
    requires i < |s|
  {
    s[..i] + s[i + 1..]
  }

  lemma RemoveAtIndex<T>(s: seq<T>, i: nat)
    requires i < |s|
    ensures |RemoveAt(s, i)| == |s| - 1
    ensures forall k | 0 <= k < i :: RemoveAt(s, i)[k] == s[k]
    ensures forall k | i <= k < |s| - 1 :: RemoveAt(s, i)[k] == s[k + 1]
  {
  }

  // The buffers that the handlers format their replies in

  const POP_SIZE: nat := 100
  const ACTIONS_SIZE: nat := 1024
  const SHOW_SIZE: nat := 2048
  const LIST_SIZE: nat := 256
  const GET_SIZE: nat := 100

  // The action stack

  datatype StackResult = StackResult(actions: seq<string>, text: Option<string>)

  function PushAction(valid: Validity, actions: seq<string>, args: Option<string>): StackResult {
    match args
    case None => StackResult(actions, None)
    case Some(a) =>
      var action := Trim(a);
      if !valid(action) then StackResult(actions, Some("BAD\n"))
      else if actions != [] && actions[0] == action then StackResult(actions, Some("OK\n"))
      else StackResult([action] + actions, Some("OK\n"))
  }

  /** Replies with the head, then deletes the first action with the head's path. */
  function PopAction(actions: seq<string>): StackResult {
    if actions == [] then StackResult(actions, Some("BAD\n"))
    else StackResult(RemoveAt(actions, PathIndex(actions, actions[0])), Some(actions[0] + "\n"))
  }

  function ActionLine(n: nat, path: string): string {
    "    " + Dec(n) + ". " + path + "\n"
  }

  /** The numbered listing, newest action first. */
  function ActionLines(actions: seq<string>, n: nat): string {
    if actions == [] then "" else ActionLine(n, actions[0]) + ActionLines(actions[1..], n + 1)
  }

  predicate IsStackCommand(c: Command) {
    c == Push || c == Pop || c == Actions || c == Reset
  }

  function OnStack(valid: Validity, actions: seq<string>, c: Command, args: Option<string>): StackResult
    requires IsStackCommand(c)
  {
    match c
    case Push => PushAction(valid, actions, args)
    case Pop => PopAction(actions)
    case Actions => StackResult(actions, Some(ActionLines(actions, 1)))
    case Reset => StackResult([], Some("OK\n"))
  }

  // The tags

  datatype TagResult = TagResult(tags: seq<Tag>, saved: bool, text: Option<string>)

  /** Replaces the path of a known tag in place, or appends a new tag. */
  function PutTag(tags: seq<Tag>, t: Tag): seq<Tag> {
    var i := TagIndex(tags, t.name);
    if i < |tags| then tags[i := t] else tags + [t]
  }

  function AddTag(valid: Validity, tags: seq<Tag>, args: string): TagResult {
    var ws := Words(args);
    if |ws| != 2 || !valid(Trim(ws[1])) then TagResult(tags, false, Some("BAD\n"))
    else TagResult(PutTag(tags, Tag(Trim(ws[0]), Trim(ws[1]))), true, Some("OK\n"))
  }

  function DeleteTag(tags: seq<Tag>, args: string): TagResult {
    var ws := Words(args);
    if ws == [] then TagResult(tags, false, None)
    else
      var i := TagIndex(tags, Trim(ws[0]));
      if i == |tags| then TagResult(tags, false, Some("BAD\n"))
      else TagResult(RemoveAt(tags, i), true, Some("OK\n"))
  }

  function GetTag(tags: seq<Tag>, args: string): TagResult {
    var ws := Words(args);
    if ws == [] then TagResult(tags, false, None)
    else
      var i := TagIndex(tags, Trim(ws[0]));
      TagResult(tags, false, Some(if i == |tags| then "BAD\n" else tags[i].path + "\n"))
  }

  function ShowLine(t: Tag): string {
    t.name + " --> " + t.path + "\n"
  }

  function ShowText(tags: seq<Tag>): string {
    if tags == [] then "" else ShowLine(tags[0]) + ShowText(tags[1..])
  }

  /** What `cmd_show` sends: its lines, cut short to its buffer. */
  function ShowReply(tags: seq<Tag>): string {
    Truncate(ShowText(tags), SHOW_SIZE)
  }

  /** Every name with a space after it. */
  function SpacedNames(tags: seq<Tag>): string {
    if tags == [] then "" else tags[0].name + " " + SpacedNames(tags[1..])
  }

  /** ... without the last space. */
  function ListText(tags: seq<Tag>): string {
    var s := SpacedNames(tags);
    if s == "" then "" else s[..|s| - 1]
  }

  predicate IsTagCommand(c: Command) {
    NeedsArgs(c) || c == Show || c == List
  }

  function OnTags(valid: Validity, tags: seq<Tag>, c: Command, args: Option<string>): TagResult
    requires IsTagCommand(c)
    requires NeedsArgs(c) ==> args.Some?
  {
    match c
    case Add => AddTag(valid, tags, args.value)
    case Delete => DeleteTag(tags, args.value)
    case Get => GetTag(tags, args.value)
    case Show => TagResult(tags, false, Some(ShowReply(tags)))
    case List => TagResult(tags, false, Some(ListText(tags)))
  }

  // One message

  function ReplyTo(addr: string, text: Option<string>): Option<Reply> {
    match text
    case None => None
    case Some(t) => Some(Reply(addr, t))
  }

  /** A handler looks at its arguments only for a registered shell. */
  predicate CanHandle(s: State, c: Command, pid: int, args: Option<string>) {
    NeedsArgs(c) && ShellIndex(s.shells, pid) < |s.shells| ==> args.Some?
  }

  function Handle(env: Env, s: State, c: Command, pid: int, args: Option<string>): Outcome
    requires CanHandle(s, c, pid, args)
  {
    var i := ShellIndex(s.shells, pid);
    if i == |s.shells| then
      if c == Register then
        var shell := Shell(pid, DaemonAddress(env.cacheDir, pid), []);
        Outcome(s.(shells := s.shells + [shell]), Some(Reply(shell.addr, "OK\n")))
      else Outcome(s, None)
    else
      var shell := s.shells[i];
      if c == Register then Outcome(s, Some(Reply(shell.addr, "OK\n")))
      else if c == Unregister then
        Outcome(s.(shells := RemoveAt(s.shells, i)), Some(Reply(shell.addr, "OK\n")))
      else if IsStackCommand(c) then
        var r := OnStack(env.valid, shell.actions, c, args);
        Outcome(s.(shells := s.shells[i := shell.(actions := r.actions)]), ReplyTo(shell.addr, r.text))
      else
        var r := OnTags(env.valid, s.tags, c, args);
        Outcome(s.(tags := r.tags, file := if r.saved then Write(r.tags) else s.file),
                ReplyTo(shell.addr, r.text))
  }

  /** The lines of `show` before the last: behind them `snprintf` still has a buffer. */
  predicate ShowFits(tags: seq<Tag>) {
    tags == [] || |ShowText(tags)| <= SHOW_SIZE + |ShowLine(tags[|tags| - 1])|
  }

  /** What the handler formats stays within its buffer. */
  predicate ReplyFits(s: State, c: Command, pid: int, args: Option<string>)
    requires CanHandle(s, c, pid, args)
  {
    var i := ShellIndex(s.shells, pid);
    i < |s.shells| ==>
      match c
      case Pop => |PopAction(s.shells[i].actions).text.value| < POP_SIZE
      case Actions => |ActionLines(s.shells[i].actions, 1)| < ACTIONS_SIZE
      case Show => ShowFits(s.tags)
      case List => |SpacedNames(s.tags)| < LIST_SIZE
      case Get =>
        var text := GetTag(s.tags, args.value).text;
        text.Some? ==> |text.value| < GET_SIZE
      case _ => true
  }

  predicate CanAct(s: State, r: Request) {
    Dispatch(r.cmd).Some? ==> CanHandle(s, Dispatch(r.cmd).value, r.pid, r.args)
  }

  predicate FitsReply(s: State, r: Request)
    requires CanAct(s, r)
  {
    Dispatch(r.cmd).Some? ==> ReplyFits(s, Dispatch(r.cmd).value, r.pid, r.args)
  }

  function Act(env: Env, s: State, r: Request): Outcome
    requires CanAct(s, r)
  {
    match Dispatch(r.cmd)
    case None => Outcome(s, None)
    case Some(c) => Handle(env, s, c, r.pid, r.args)
  }

  function Step(env: Env, s: State, m: Message): Outcome {
    Act(env, s, m)
  }

  // Runs

  datatype Trace = Trace(state: State, replies: seq<Option<Reply>>)

  function Run(env: Env, s: State, ms: seq<Message>): Trace
    decreases |ms|
  {
    if ms == [] then Trace(s, [])
    else
      var o := Step(env, s, ms[0]);
      var t := Run(env, o.state, ms[1..]);
      Trace(t.state, [o.reply] + t.replies)
  }

  /** The state after start-up: no shells, and the tags in the file. */
  function Start(env: Env, content: string): State {
    State([], Read(content, env.valid), content)
  }
}
