/**
  What every run keeps true of the action stacks, and how the listing and popping
  of a stack agree.
 */
module ActionStack {
  import opened CString
  import opened Decimal
  import opened TagFile
  import opened Daemon
  import opened Isolation
  import opened CommandTable

  // In every reachable state

  /** Valid paths without white space, no two adjacent ones equal. */
  predicate GoodStack(valid: Validity, actions: seq<string>) {
    && (forall k | 0 <= k < |actions| :: valid(actions[k]) && Plain(actions[k]))
    && (forall k | 0 <= k < |actions| - 1 :: actions[k] != actions[k + 1])
  }

  predicate Short(actions: seq<string>) {
    forall k | 0 <= k < |actions| :: |actions[k]| <= 92
  }

  predicate GoodStacks(valid: Validity, shells: seq<Shell>) {
    forall i | 0 <= i < |shells| :: GoodStack(valid, shells[i].actions)
  }

  predicate ShortStacks(shells: seq<Shell>) {
    forall i | 0 <= i < |shells| :: Short(shells[i].actions)
  }

  /**
    What fits the 100-byte buffer, whose last byte is always NUL: a pid of at least
    one byte, a separator, the command, and with arguments one more separator.
   */
  predicate WireSized(r: Request) {
    match r.args
    case None => |r.cmd| + 2 <= 99
    case Some(a) => |r.cmd| + |a| + 3 <= 99
  }

  predicate AllWireSized(ms: seq<Message>) {
    forall i | 0 <= i < |ms| :: WireSized(ms[i])
  }

  /** Pop deletes by path, yet removes exactly the head that it reports. */
  lemma PopRemovesHead(actions: seq<string>)
    requires actions != []
    ensures PopAction(actions) == StackResult(actions[1..], Some(actions[0] + "\n"))
  {
    assert PathIndex(actions, actions[0]) == 0;
    assert RemoveAt(actions, 0) == actions[1..];
  }

  lemma PushGood(valid: Validity, actions: seq<string>, args: Option<string>)
    requires GoodStack(valid, actions)
    ensures GoodStack(valid, PushAction(valid, actions, args).actions)
  {
    hide Trim, Plain;
    if args.Some? {
      TrimIsPlain(args.value);
    }
  }

  lemma TailGood(valid: Validity, actions: seq<string>)
    requires actions != [] && GoodStack(valid, actions)
    ensures GoodStack(valid, actions[1..])
  {
    hide Plain;
    assert forall k | 0 <= k < |actions| - 1 :: actions[1..][k] == actions[k + 1];
  }

  /** Every command keeps a good stack good. */
  lemma OnStackGood(valid: Validity, actions: seq<string>, c: Command, args: Option<string>)
    requires IsStackCommand(c) && GoodStack(valid, actions)
    ensures GoodStack(valid, OnStack(valid, actions, c, args).actions)
  {
    if c == Push {
      hide *;
      PushGood(valid, actions, args);
    } else if c == Pop && actions != [] {
      PopRemovesHead(actions);
      TailGood(valid, actions);
    }
  }

  /** ... and stacks hold only paths that fit the reply buffer of pop. */
  lemma OnStackShort(valid: Validity, actions: seq<string>, m: Message)
    requires Dispatch(m.cmd).Some? && IsStackCommand(Dispatch(m.cmd).value)
    requires WireSized(m) && Short(actions)
    ensures Short(OnStack(valid, actions, Dispatch(m.cmd).value, m.args).actions)
  {
    var c := Dispatch(m.cmd).value;
    if c == Push && m.args.Some? {
      CommandName(m.cmd);
      TrimIsPlain(m.args.value);
    }
    if c == Pop && actions != [] {
      PopRemovesHead(actions);
    }
  }

  /** A step leaves stacks as they were, makes an empty one, or applies a command to one. */
  lemma StepOnStacks(env: Env, s: State, m: Message, k: nat)
    requires k < |Step(env, s, m).state.shells|
    ensures var actions := Step(env, s, m).state.shells[k].actions; var d := Dispatch(m.cmd);
      || actions == []
      || (exists i | 0 <= i < |s.shells| :: actions == s.shells[i].actions)
      || (d.Some? && IsStackCommand(d.value)
          && exists i | 0 <= i < |s.shells| ::
            actions == OnStack(env.valid, s.shells[i].actions, d.value, m.args).actions)
  {
    hide OnStack, OnTags, Write, RemoveAt, Dispatch;
    var s' := Step(env, s, m).state;
    var i := ShellIndex(s.shells, m.pid);
    if s' != s && i < |s.shells| {
      var c := Dispatch(m.cmd).value;
      if c == Unregister {
        RemoveAtIndex(s.shells, i);
        assert s'.shells == RemoveAt(s.shells, i);
      } else if IsStackCommand(c) {
        var r := OnStack(env.valid, s.shells[i].actions, c, m.args);
        assert s'.shells == s.shells[i := s.shells[i].(actions := r.actions)];
        if k != i { assert s'.shells[k] == s.shells[k]; }
      }
    }
  }

  /** One step keeps every stack good, and short if the message fits the buffer. */
  lemma StepStacks(env: Env, s: State, m: Message)
    requires GoodStacks(env.valid, s.shells)
    ensures GoodStacks(env.valid, Step(env, s, m).state.shells)
    ensures ShortStacks(s.shells) && WireSized(m) ==> ShortStacks(Step(env, s, m).state.shells)
  {
    var shells := Step(env, s, m).state.shells;
    forall k | 0 <= k < |shells|
      ensures GoodStack(env.valid, shells[k].actions)
      ensures ShortStacks(s.shells) && WireSized(m) ==> Short(shells[k].actions)
    {
      StepOnStacks(env, s, m, k);
      var d := Dispatch(m.cmd);
      if d.Some? && IsStackCommand(d.value) {
        forall i | 0 <= i < |s.shells| ensures
          var r := OnStack(env.valid, s.shells[i].actions, d.value, m.args).actions;
          GoodStack(env.valid, r) && (ShortStacks(s.shells) && WireSized(m) ==> Short(r))
        {
          OnStackGood(env.valid, s.shells[i].actions, d.value, m.args);
          if ShortStacks(s.shells) && WireSized(m) {
            OnStackShort(env.valid, s.shells[i].actions, m);
          }
        }
      }
    }
  }

  /**
    In every reachable state no two adjacent actions are equal and every action is
    valid; if every message fits the buffer no action is longer than 92 bytes.
   */
  lemma {:induction false} RunStacks(env: Env, s: State, ms: seq<Message>)
    requires GoodStacks(env.valid, s.shells)
    ensures GoodStacks(env.valid, Run(env, s, ms).state.shells)
    ensures ShortStacks(s.shells) && AllWireSized(ms)
      ==> ShortStacks(Run(env, s, ms).state.shells)
    decreases |ms|
  {
    if ms != [] {
      StepStacks(env, s, ms[0]);
      RunStacks(env, Step(env, s, ms[0]).state, ms[1..]);
    }
  }

  /** What `pop` formats, with its NUL, fits its buffer in every reachable state. */
  lemma PopFits(env: Env, content: string, ms: seq<Message>, pid: int)
    requires AllWireSized(ms)
    ensures var stack := StackOf(Run(env, Start(env, content), ms).state.shells, pid);
      stack.Some? ==> |PopAction(stack.value).text.value| + 1 <= 94 < POP_SIZE
    ensures ReplyFits(Run(env, Start(env, content), ms).state, Pop, pid, None)
  {
    RunStacks(env, Start(env, content), ms);
    var shells := Run(env, Start(env, content), ms).state.shells;
    var i := ShellIndex(shells, pid);
    if i < |shells| && shells[i].actions != [] {
      assert Short(shells[i].actions);
      PopRemovesHead(shells[i].actions);
    }
  }

  // Listing and popping

  /** The paths in a listing: what follows the first `. ` of every line. */
  function ListedPaths(text: string): seq<string>
    decreases |text|
  {
    if text == "" then []
    else
      var path := After(UpTo(text, {'\n'}), {'.'});
      [if path == "" then "" else path[1..]] + ListedPaths(After(text, {'\n'}))
  }

  lemma LineParts(n: nat, path: string, rest: string)
    requires Plain(path)
    ensures UpTo(ActionLine(n, path) + rest, {'\n'}) == "    " + Dec(n) + ". " + path
    ensures After(ActionLine(n, path) + rest, {'\n'}) == rest
    ensures After("    " + Dec(n) + ". " + path, {'.'}) == " " + path
  {
    var head := "    " + Dec(n);
    var line := head + ". " + path;
    var text := line + "\n" + rest;
    assert ActionLine(n, path) + rest == text;
    assert forall k | 0 <= k < |head| :: head[k] == ' ' || IsDigit(head[k]);
    assert forall k | 0 <= k < |head| :: line[k] == head[k];
    assert forall k | |head| + 2 <= k < |line| :: line[k] == path[k - |head| - 2];
    assert forall k | 0 <= k < |line| :: text[k] == line[k];
    CSpanIs(text, {'\n'}, |line|);
    CSpanIs(line, {'.'}, |head|);
    assert line[|head| + 1..] == " " + path;
  }

  lemma ListedFirst(n: nat, path: string, rest: string)
    requires Plain(path)
    ensures ListedPaths(ActionLine(n, path) + rest) == [path] + ListedPaths(rest)
  {
    LineParts(n, path, rest);
    assert (" " + path)[1..] == path;
    assert ActionLine(n, path) != "";
    hide After, UpTo, ActionLine, Plain;
  }

  /** Reading a listing gives back the stack it lists. */
  lemma {:induction false} ListingRoundTrip(actions: seq<string>, n: nat)
    requires forall k | 0 <= k < |actions| :: Plain(actions[k])
    ensures ListedPaths(ActionLines(actions, n)) == actions
    decreases |actions|
  {
    if actions != [] {
      hide ListedPaths, ActionLine, Plain;
      ListingRoundTrip(actions[1..], n + 1);
      ListedFirst(n, actions[0], ActionLines(actions[1..], n + 1));
      assert actions == [actions[0]] + actions[1..];
    }
  }

  function PopMessage(pid: int): (m: Message)
    ensures Dispatch(m.cmd) == Some(Pop) && m.pid == pid
  {
    DispatchIff("pop", 7);
    Request(pid, "pop", None)
  }

  function ActionsMessage(pid: int): (m: Message)
    ensures Dispatch(m.cmd) == Some(Actions) && m.pid == pid
  {
    DispatchIff("actions", 8);
    Request(pid, "actions", None)
  }

  function Pops(pid: int, n: nat): seq<Message> {
    if n == 0 then [] else [PopMessage(pid)] + Pops(pid, n - 1)
  }

  /** The replies to popping everything and then once more. */
  function PopTexts(actions: seq<string>): seq<Option<string>> {
    if actions == [] then [Some("BAD\n")] else [Some(actions[0] + "\n")] + PopTexts(actions[1..])
  }

  lemma PopLocal(valid: Validity, actions: seq<string>, pid: int)
    ensures !IsTagMessage(PopMessage(pid))
    ensures LocalMessage(valid, Some(actions), PopMessage(pid)) ==
      if actions == [] then LocalResult(Some([]), Some("BAD\n"))
      else LocalResult(Some(actions[1..]), Some(actions[0] + "\n"))
  {
    hide PopMessage, PathIndex, RemoveAt;
    if actions != [] { PopRemovesHead(actions); }
  }

  lemma LocalRunCons(valid: Validity, stack: Option<seq<string>>, m: Message, rest: seq<Message>)
    requires !IsTagMessage(m)
    ensures var r := LocalMessage(valid, stack, m); var t := LocalRun(valid, r.stack, rest);
      LocalRun(valid, stack, [m] + rest) == LocalTrace(t.stack, [r.text] + t.texts)
  {
    hide LocalMessage, IsTagMessage;
    assert ([m] + rest)[1..] == rest;
  }

  lemma {:induction false} PopsLocal(valid: Validity, actions: seq<string>, pid: int)
    ensures LocalRun(valid, Some(actions), Pops(pid, |actions| + 1))
      == LocalTrace(Some([]), PopTexts(actions))
    decreases |actions|
  {
    if actions == [] {
      assert LocalRun(valid, Some([]), Pops(pid, 0)) == LocalTrace(Some([]), []);
    }
    hide PopMessage, LocalMessage, IsTagMessage, LocalRun;
    PopLocal(valid, actions, pid);
    LocalRunCons(valid, Some(actions), PopMessage(pid), Pops(pid, |actions|));
    if actions != [] {
      PopsLocal(valid, actions[1..], pid);
    }
  }

  lemma ListThenPopLocal(valid: Validity, actions: seq<string>, pid: int)
    ensures LocalRun(valid, Some(actions), [ActionsMessage(pid)] + Pops(pid, |actions| + 1))
      == LocalTrace(Some([]), [Some(ActionLines(actions, 1))] + PopTexts(actions))
  {
    var ms := [ActionsMessage(pid)] + Pops(pid, |actions| + 1);
    assert ms[0] == ActionsMessage(pid) && ms[1..] == Pops(pid, |actions| + 1);
    PopsLocal(valid, actions, pid);
  }

  /**
    Listing agrees with popping, for a listing that fits its buffer.  Whatever other
    shells do in between, if a shell asks for its listing and then pops once more than
    it has actions, the replies are the listed paths in order and then BAD.
   */
  lemma {:induction false} ListingAgreesWithPopping(
      env: Env, s: State, ms: seq<Message>, pid: int, actions: seq<string>)
      returns (listing: string)
    requires ShellsOk(env, s.shells) && StackOf(s.shells, pid) == Some(actions)
    requires forall k | 0 <= k < |actions| :: Plain(actions[k])
    requires |ActionLines(actions, 1)| < ACTIONS_SIZE
    requires Only(ms, pid) == [ActionsMessage(pid)] + Pops(pid, |actions| + 1)
    ensures |Run(env, s, ms).replies| == |ms|
    ensures Heard(ms, Run(env, s, ms).replies, pid) == [Some(listing)] + PopTexts(ListedPaths(listing))
    ensures ListedPaths(listing) == actions
    ensures StackOf(Run(env, s, ms).state.shells, pid) == Some([])
  {
    listing := ActionLines(actions, 1);
    ListingRoundTrip(actions, 1);
    RunIsLocal(env, s, ms, pid);
    ListThenPopLocal(env.valid, actions, pid);
  }

  /** The replies to popping are the actions from the newest on, then BAD. */
  lemma {:induction false} PopTextsShape(actions: seq<string>)
    ensures |PopTexts(actions)| == |actions| + 1
    ensures forall k | 0 <= k < |actions| :: PopTexts(actions)[k] == Some(actions[k] + "\n")
    ensures PopTexts(actions)[|actions|] == Some("BAD\n")
    decreases |actions|
  {
    if actions != [] { PopTextsShape(actions[1..]); }
  }

  // The other stack commands

  /** What a message does to the stacks, when it leaves `actions` on its sender's. */
  ghost predicate OnlyStack(s: State, s': State, pid: int, actions: seq<string>) {
    && StackOf(s'.shells, pid) == Some(actions)
    && (forall other | other != pid :: StackOf(s'.shells, other) == StackOf(s.shells, other))
    && s'.tags == s.tags && s'.file == s.file
  }

  lemma StackMessage(env: Env, s: State, m: Message)
    requires ShellsOk(env, s.shells) && StackOf(s.shells, m.pid).Some?
    requires Dispatch(m.cmd).Some? && IsStackCommand(Dispatch(m.cmd).value)
    ensures var r := OnStack(env.valid, StackOf(s.shells, m.pid).value, Dispatch(m.cmd).value, m.args);
      && OnlyStack(s, Step(env, s, m).state, m.pid, r.actions)
      && Step(env, s, m).reply == ReplyTo(DaemonAddress(env.cacheDir, m.pid), r.text)
  {
    hide Dispatch, OnStack, OnTags, Write, DaemonAddress;
    forall pid {
      StepIsLocal(env, s, m, pid);
    }
    ReplyGoesToSender(env, s, m);
  }

  /** `reset` empties its sender's stack, says OK, and does nothing else. */
  lemma ResetEmpties(env: Env, s: State, m: Message)
    requires ShellsOk(env, s.shells) && StackOf(s.shells, m.pid).Some? && Dispatch(m.cmd) == Some(Reset)
    ensures OnlyStack(s, Step(env, s, m).state, m.pid, [])
    ensures Step(env, s, m).reply == Some(Reply(DaemonAddress(env.cacheDir, m.pid), "OK\n"))
  {
    hide Step, OnlyStack, StackOf, DaemonAddress, Dispatch;
    StackMessage(env, s, m);
  }

  /**
    `push` with arguments: what stands before their first blank goes on top and is
    answered OK, if it is a valid path and not there already; a path that is there is
    answered OK, an invalid one BAD, and both leave the stack as it is.
   */
  lemma PushAdds(env: Env, s: State, m: Message, path: string)
    requires ShellsOk(env, s.shells) && StackOf(s.shells, m.pid).Some? && Dispatch(m.cmd) == Some(Push)
    requires m.args.Some? && CutAtBlank(m.args.value, path)
    ensures var actions, o := StackOf(s.shells, m.pid).value, Step(env, s, m);
      && OnlyStack(s, o.state, m.pid,
           if env.valid(path) && (actions == [] || actions[0] != path) then [path] + actions else actions)
      && o.reply == Some(Reply(DaemonAddress(env.cacheDir, m.pid), if env.valid(path) then "OK\n" else "BAD\n"))
  {
    hide Step, OnlyStack, StackOf, DaemonAddress, Dispatch, Trim, CutAtBlank;
    StackMessage(env, s, m);
    TrimIff(m.args.value, path);
  }

  /** `pop` takes the top off and replies with it, or says BAD on an empty stack. */
  lemma PopTakes(env: Env, s: State, m: Message)
    requires ShellsOk(env, s.shells) && StackOf(s.shells, m.pid).Some? && Dispatch(m.cmd) == Some(Pop)
    ensures var actions, o := StackOf(s.shells, m.pid).value, Step(env, s, m);
      && OnlyStack(s, o.state, m.pid, if actions == [] then [] else actions[1..])
      && o.reply == Some(Reply(
           DaemonAddress(env.cacheDir, m.pid), if actions == [] then "BAD\n" else actions[0] + "\n"))
  {
    hide Step, OnlyStack, StackOf, DaemonAddress, Dispatch, RemoveAt, PathIndex;
    StackMessage(env, s, m);
    var actions := StackOf(s.shells, m.pid).value;
    if actions != [] { PopRemovesHead(actions); }
  }

  /** `push` without arguments is ignored. */
  lemma PushNothing(env: Env, s: State, m: Message)
    requires Dispatch(m.cmd) == Some(Push) && m.args.None?
    ensures Step(env, s, m) == Outcome(s, None)
  {
  }

  function ResetMessage(pid: int): (m: Message)
    ensures Dispatch(m.cmd) == Some(Reset) && m.pid == pid
  {
    DispatchIff("reset", 10);
    Request(pid, "reset", None)
  }

  lemma ActionsLocal(valid: Validity, actions: seq<string>, pid: int)
    ensures !IsTagMessage(ActionsMessage(pid))
    ensures LocalMessage(valid, Some(actions), ActionsMessage(pid))
      == LocalResult(Some(actions), Some(ActionLines(actions, 1)))
  {
    hide ActionsMessage, ActionLines;
  }

  lemma ResetLocal(valid: Validity, actions: seq<string>, pid: int)
    ensures !IsTagMessage(ResetMessage(pid))
    ensures LocalMessage(valid, Some(actions), ResetMessage(pid)) == LocalResult(Some([]), Some("OK\n"))
  {
    hide ResetMessage;
  }

  /** Three messages, one after the other. */
  lemma LocalRunThree(valid: Validity, stack: Option<seq<string>>, a: Message, b: Message, c: Message)
    requires !IsTagMessage(a) && !IsTagMessage(b) && !IsTagMessage(c)
    ensures var x := LocalMessage(valid, stack, a);
      var y := LocalMessage(valid, x.stack, b);
      var z := LocalMessage(valid, y.stack, c);
      LocalRun(valid, stack, [a, b, c]) == LocalTrace(z.stack, [x.text, y.text, z.text])
  {
    var x := LocalMessage(valid, stack, a);
    var y := LocalMessage(valid, x.stack, b);
    var z := LocalMessage(valid, y.stack, c);
    assert LocalRun(valid, z.stack, []) == LocalTrace(z.stack, []);
    hide LocalRun, LocalMessage, IsTagMessage;
    LocalRunCons(valid, y.stack, c, []);
    LocalRunCons(valid, x.stack, b, [c]);
    LocalRunCons(valid, stack, a, [b, c]);
    assert [c] + [] == [c] && [b] + [c] == [b, c] && [a] + [b, c] == [a, b, c];
  }

  lemma NothingListed()
    ensures ActionLines([], 1) == ""
  {
  }

  lemma ResetThenLocal(valid: Validity, actions: seq<string>, pid: int)
    ensures LocalRun(valid, Some(actions), [ResetMessage(pid), ActionsMessage(pid), PopMessage(pid)])
      == LocalTrace(Some([]), [Some("OK\n"), Some(""), Some("BAD\n")])
  {
    hide *;
    ResetLocal(valid, actions, pid);
    ActionsLocal(valid, [], pid);
    NothingListed();
    PopLocal(valid, [], pid);
    LocalRunThree(valid, Some(actions), ResetMessage(pid), ActionsMessage(pid), PopMessage(pid));
  }

  /**
    Whatever other shells do in between, behind a reset the listing is empty and there is
    nothing to pop.
   */
  lemma NothingBehindReset(env: Env, s: State, ms: seq<Message>, pid: int)
    requires ShellsOk(env, s.shells) && StackOf(s.shells, pid).Some?
    requires Only(ms, pid) == [ResetMessage(pid), ActionsMessage(pid), PopMessage(pid)]
    ensures |Run(env, s, ms).replies| == |ms|
    ensures Heard(ms, Run(env, s, ms).replies, pid) == [Some("OK\n"), Some(""), Some("BAD\n")]
    ensures StackOf(Run(env, s, ms).state.shells, pid) == Some([])
  {
    hide *;
    RunIsLocal(env, s, ms, pid);
    ResetThenLocal(env.valid, StackOf(s.shells, pid).value, pid);
  }
}
