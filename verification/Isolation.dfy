/**
  One shell's action stack is its own.

  `LocalStep` is the machine of a single shell.  Whatever messages other shells
  interleave, a pid's registration, its stack and the replies to its stack commands
  are those of that machine run on the pid's own messages.
 */
module Isolation {
  import opened CString
  import opened Decimal
  import opened TagFile
  import opened Daemon

  predicate DistinctPids(shells: seq<Shell>) {
    forall i, j | 0 <= i < j < |shells| :: shells[i].pid != shells[j].pid
  }

  /** Every shell's address is the one its pid determines. */
  predicate Addressed(env: Env, shells: seq<Shell>) {
    forall i | 0 <= i < |shells| :: shells[i].addr == DaemonAddress(env.cacheDir, shells[i].pid)
  }

  /** The stack of a pid; `None` when it is not registered. */
  function StackOf(shells: seq<Shell>, pid: int): Option<seq<string>> {
    var i := ShellIndex(shells, pid);
    if i == |shells| then None else Some(shells[i].actions)
  }

  datatype LocalResult = LocalResult(stack: Option<seq<string>>, text: Option<string>)

  /** One shell on its own, without tags and without other shells. */
  function LocalStep(valid: Validity, stack: Option<seq<string>>, c: Command, args: Option<string>): LocalResult {
    match stack
    case None => if c == Register then LocalResult(Some([]), Some("OK\n")) else LocalResult(None, None)
    case Some(actions) =>
      if c == Register then LocalResult(stack, Some("OK\n"))
      else if c == Unregister then LocalResult(None, Some("OK\n"))
      else if IsStackCommand(c) then
        var r := OnStack(valid, actions, c, args);
        LocalResult(Some(r.actions), r.text)
      else LocalResult(stack, None)
  }

  predicate IsTagMessage(m: Message) {
    Dispatch(m.cmd).Some? && IsTagCommand(Dispatch(m.cmd).value)
  }

  function LocalMessage(valid: Validity, stack: Option<seq<string>>, m: Message): LocalResult {
    match Dispatch(m.cmd)
    case None => LocalResult(stack, None)
    case Some(c) => LocalStep(valid, stack, c, m.args)
  }

  datatype LocalTrace = LocalTrace(stack: Option<seq<string>>, texts: seq<Option<string>>)

  /** The machine on a run, with its replies to everything but tag commands. */
  function LocalRun(valid: Validity, stack: Option<seq<string>>, ms: seq<Message>): LocalTrace
    decreases |ms|
  {
    if ms == [] then LocalTrace(stack, [])
    else
      var r := LocalMessage(valid, stack, ms[0]);
      var t := LocalRun(valid, r.stack, ms[1..]);
      LocalTrace(t.stack, (if IsTagMessage(ms[0]) then [] else [r.text]) + t.texts)
  }

  function Only(ms: seq<Message>, pid: int): seq<Message>
    decreases |ms|
  {
    if ms == [] then []
    else (if ms[0].pid == pid then [ms[0]] else []) + Only(ms[1..], pid)
  }

  function TextOf(r: Option<Reply>): Option<string> {
    match r
    case None => None
    case Some(reply) => Some(reply.text)
  }

  /** The replies in a run to a pid's messages, tag commands left out. */
  function Heard(ms: seq<Message>, replies: seq<Option<Reply>>, pid: int): seq<Option<string>>
    requires |ms| == |replies|
    decreases |ms|
  {
    if ms == [] then []
    else (if ms[0].pid == pid && !IsTagMessage(ms[0]) then [TextOf(replies[0])] else [])
         + Heard(ms[1..], replies[1..], pid)
  }

  lemma ShellIndexIs(shells: seq<Shell>, pid: int, i: nat)
    requires i <= |shells|
    requires forall k | 0 <= k < i :: shells[k].pid != pid
    requires i < |shells| ==> shells[i].pid == pid
    ensures ShellIndex(shells, pid) == i
  {
  }

  lemma StackAfterAppend(shells: seq<Shell>, sh: Shell, pid: int)
    ensures StackOf(shells + [sh], pid) ==
      if ShellIndex(shells, pid) == |shells| && sh.pid == pid then Some(sh.actions) else StackOf(shells, pid)
  {
    var i := ShellIndex(shells, pid);
    ShellIndexIs(shells + [sh], pid, if i < |shells| || sh.pid == pid then i else |shells| + 1);
  }

  lemma StackAfterUpdate(shells: seq<Shell>, i: nat, actions: seq<string>, pid: int)
    requires i < |shells| && i == ShellIndex(shells, shells[i].pid)
    ensures StackOf(shells[i := shells[i].(actions := actions)], pid) ==
      if pid == shells[i].pid then Some(actions) else StackOf(shells, pid)
  {
    ShellIndexIs(shells[i := shells[i].(actions := actions)], pid, ShellIndex(shells, pid));
  }

  lemma StackAfterRemove(shells: seq<Shell>, i: nat, pid: int)
    requires i < |shells| && DistinctPids(shells)
    ensures StackOf(RemoveAt(shells, i), pid) == if pid == shells[i].pid then None else StackOf(shells, pid)
  {
    var j := ShellIndex(shells, pid);
    var rest := RemoveAt(shells, i);
    assert forall k | 0 <= k < |rest| :: rest[k] == shells[if k < i then k else k + 1];
    if pid == shells[i].pid {
      ShellIndexIs(rest, pid, |rest|);
    } else {
      assert j != i;
      ShellIndexIs(rest, pid, if j < i then j else j - 1);
    }
  }

  predicate ShellsOk(env: Env, shells: seq<Shell>) {
    DistinctPids(shells) && Addressed(env, shells)
  }

  lemma RemoveKeepsShells(env: Env, shells: seq<Shell>, i: nat)
    requires ShellsOk(env, shells) && i < |shells|
    ensures ShellsOk(env, RemoveAt(shells, i))
  {
    hide RemoveAt;
    RemoveAtIndex(shells, i);
  }

  /** Every step keeps pids distinct and addresses determined by them. */
  lemma StepKeepsShells(env: Env, s: State, m: Message)
    requires ShellsOk(env, s.shells)
    ensures ShellsOk(env, Step(env, s, m).state.shells)
  {
    var i := ShellIndex(s.shells, m.pid);
    var shells := Step(env, s, m).state.shells;
    if i < |s.shells| {
      RemoveKeepsShells(env, s.shells, i);
      if shells != s.shells && shells != RemoveAt(s.shells, i) {
        var c := Dispatch(m.cmd).value;
        var r := OnStack(env.valid, s.shells[i].actions, c, m.args);
        assert shells == s.shells[i := s.shells[i].(actions := r.actions)];
      }
    }
  }

  lemma {:induction false} RunKeepsShells(env: Env, s: State, ms: seq<Message>)
    requires ShellsOk(env, s.shells)
    ensures ShellsOk(env, Run(env, s, ms).state.shells)
    decreases |ms|
  {
    if ms != [] {
      StepKeepsShells(env, s, ms[0]);
      RunKeepsShells(env, Step(env, s, ms[0]).state, ms[1..]);
    }
  }

  /** A step is a step of the sender's own machine, and nothing to any other shell. */
  lemma StepIsLocal(env: Env, s: State, m: Message, pid: int)
    requires DistinctPids(s.shells)
    ensures var o := Step(env, s, m); var r := LocalMessage(env.valid, StackOf(s.shells, pid), m);
      if m.pid == pid
      then StackOf(o.state.shells, pid) == r.stack && (IsTagMessage(m) || TextOf(o.reply) == r.text)
      else StackOf(o.state.shells, pid) == StackOf(s.shells, pid)
  {
    var d := Dispatch(m.cmd);
    if d.Some? {
      var c := d.value;
      var i := ShellIndex(s.shells, m.pid);
      if i == |s.shells| {
        if c == Register {
          StackAfterAppend(s.shells, Shell(m.pid, DaemonAddress(env.cacheDir, m.pid), []), pid);
        }
      } else if c == Unregister {
        StackAfterRemove(s.shells, i, pid);
      } else if IsStackCommand(c) {
        StackAfterUpdate(s.shells, i, OnStack(env.valid, s.shells[i].actions, c, m.args).actions, pid);
      }
    }
  }

  /** The handler only ever answers the sender, at the address of its pid. */
  lemma ReplyGoesToSender(env: Env, s: State, m: Message)
    requires Addressed(env, s.shells)
    ensures Step(env, s, m).reply.Some? ==>
      Step(env, s, m).reply.value.to == DaemonAddress(env.cacheDir, m.pid)
  {
    hide OnStack, OnTags, Write, RemoveAt, Dispatch;
  }

  /** Except for `register`, a message from an unregistered pid changes nothing. */
  lemma UnregisteredIsIgnored(env: Env, s: State, m: Message)
    requires StackOf(s.shells, m.pid).None? && Dispatch(m.cmd) != Some(Register)
    ensures Step(env, s, m) == Outcome(s, None)
  {
  }

  /**
    Isolation: in every interleaved run, a pid's registration, its stack and what it
    hears are those of its own machine on its own messages.
   */
  lemma {:induction false} RunIsLocal(env: Env, s: State, ms: seq<Message>, pid: int)
    requires ShellsOk(env, s.shells)
    ensures var t := Run(env, s, ms);
      && |t.replies| == |ms|
      && LocalRun(env.valid, StackOf(s.shells, pid), Only(ms, pid))
         == LocalTrace(StackOf(t.state.shells, pid), Heard(ms, t.replies, pid))
    decreases |ms|
  {
    if ms != [] {
      var m, rest := ms[0], ms[1..];
      var o := Step(env, s, m);
      StepIsLocal(env, s, m, pid);
      StepKeepsShells(env, s, m);
      RunIsLocal(env, o.state, rest, pid);
      var t := Run(env, s, ms);
      assert t.replies[0] == o.reply;
      assert t.replies[1..] == Run(env, o.state, rest).replies;
      if m.pid == pid {
        assert Only(ms, pid) == [m] + Only(rest, pid);
        assert Only(ms, pid)[1..] == Only(rest, pid);
      } else {
        assert Only(ms, pid) == Only(rest, pid);
        assert Heard(ms, t.replies, pid) == Heard(rest, t.replies[1..], pid);
      }
    }
  }

  lemma {:induction false} OnlyTwice(ms: seq<Message>, pid: int)
    ensures Only(Only(ms, pid), pid) == Only(ms, pid)
    decreases |ms|
  {
    if ms != [] {
      OnlyTwice(ms[1..], pid);
      if ms[0].pid == pid {
        assert Only(ms, pid)[1..] == Only(ms[1..], pid);
      } else {
        assert Only(ms, pid) == Only(ms[1..], pid);
      }
    }
  }

  /** The same as a projection: dropping every other shell's messages is invisible. */
  lemma {:induction false} IsolationByProjection(env: Env, s: State, ms: seq<Message>, pid: int)
    requires ShellsOk(env, s.shells)
    ensures var t, u := Run(env, s, ms), Run(env, s, Only(ms, pid));
      && |t.replies| == |ms| && |u.replies| == |Only(ms, pid)|
      && StackOf(t.state.shells, pid) == StackOf(u.state.shells, pid)
      && Heard(ms, t.replies, pid) == Heard(Only(ms, pid), u.replies, pid)
  {
    RunIsLocal(env, s, ms, pid);
    RunIsLocal(env, s, Only(ms, pid), pid);
    OnlyTwice(ms, pid);
  }
}
