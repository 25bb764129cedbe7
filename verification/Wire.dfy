/**
  The wire: the client joins its words with spaces, the daemon tokenises them in a
  100-byte buffer that it never clears.

  A datagram carries no NUL, so a message is followed in the buffer by whatever
  earlier messages left there, up to the next NUL.  The theorems quantify over every
  such remainder, whatever put it there.
 */
module Wire {
  import opened CString
  import opened Decimal
  import opened TagFile
  import opened Daemon
  import opened ReceiveBuffer
  import opened Isolation
  import opened CommandTable
  import opened ActionStack
  import opened TagMap

  // The client

  /** What `process_command` sends: every word followed by a space. */
  function Encode(ws: seq<string>): string {
    if ws == [] then "" else ws[0] + " " + Encode(ws[1..])
  }

  function NonEmpty(ws: seq<string>): seq<string> {
    if ws == [] then [] else (if ws[0] == "" then [] else [ws[0]]) + NonEmpty(ws[1..])
  }

  /** The wire round trip: tokenising gives the words, empty ones dropped. */
  lemma {:induction false} WireRoundTrip(ws: seq<string>)
    requires forall i | 0 <= i < |ws| :: SpaceFree(ws[i])
    ensures Words(Encode(ws)) == NonEmpty(ws)
  {
    if ws != [] {
      WordsCons(ws[0], Encode(ws[1..]));
      WireRoundTrip(ws[1..]);
    }
  }

  lemma {:induction false} EncodeAppend(a: seq<string>, b: seq<string>)
    ensures Encode(a + b) == Encode(a) + Encode(b)
    decreases |a|
  {
    if a == [] {
      assert a + b == b;
    } else {
      assert (a + b)[1..] == a[1..] + b;
      EncodeAppend(a[1..], b);
      Associative(a[0] + " ", Encode(a[1..]), Encode(b));
    }
  }

  // Messages in the buffer

  /** Every request parsed from the buffer fits it. */
  lemma ParsedFits(s: string)
    requires |s| < BUFFER_SIZE && ParseMessage(s).Parsed?
    ensures WireSized(ParseMessage(s).request)
  {
    var t := Skip(s, {' '});
    var rest := After(t, {' '});
    assert CSpan(t, {' '}) > 0;
    assert |rest| + 2 <= |s|;
    var u := Skip(rest, {' '});
    assert |u| <= |rest|;
  }

  /** A buffer as clients leave it: its last byte stays NUL. */
  predicate IsBuffer(buf: seq<char>) {
    |buf| == BUFFER_SIZE && buf[BUFFER_SIZE - 1] == '\0'
  }

  /** What earlier messages left behind a datagram of `n` bytes. */
  function Stale(buf: seq<char>, n: nat): string
    requires n <= |buf|
  {
    At(buf, n)
  }

  lemma ReceiveKeepsNul(buf: seq<char>, datagram: seq<char>)
    requires IsBuffer(buf) && |datagram| < BUFFER_SIZE
    ensures IsBuffer(Receive(buf, datagram)) && Terminated(Receive(buf, datagram), 0)
  {
    TerminatedByLast(Receive(buf, datagram), 0);
  }

  lemma ReceivedString(buf: seq<char>, datagram: string)
    requires |datagram| <= |buf| && NulFree(datagram)
    ensures At(Receive(buf, datagram), 0) == datagram + Stale(buf, |datagram|)
  {
    var n, b := |datagram|, Receive(buf, datagram);
    var e := End(buf, n);
    assert forall k | n <= k < |b| :: b[k] == buf[k];
    EndIs(b, 0, e);
    assert b[0..e] == datagram + buf[n..e];
  }

  lemma FirstToken(w: string, t: string)
    requires w != "" && SpaceFree(w)
    ensures var s := Skip(w + " " + t, {' '});
      s == w + " " + t && UpTo(s, {' '}) == w && After(s, {' '}) == t
  {
    var s := w + " " + t;
    assert forall k | 0 <= k < |w| :: s[k] == w[k];
    SpanIs(s, {' '}, 0);
    CSpanIs(s, {' '}, |w|);
  }

  /** A framed pid and command are read as sent, whatever follows them. */
  lemma ParseFramed(pid: string, cmd: string, tail: string)
    requires pid != "" && SpaceFree(pid) && cmd != "" && SpaceFree(cmd)
    ensures ParseMessage(pid + " " + cmd + " " + tail) ==
      match PidOf(pid)
      case None => OutOfRange
      case Some(p) => Parsed(Request(p, cmd, if tail == "" then None else Some(tail)))
  {
    var rest := cmd + " " + tail;
    assert pid + " " + cmd + " " + tail == pid + " " + rest;
    FirstToken(pid, rest);
    FirstToken(cmd, tail);
  }

  // A client's message in a stale buffer

  /** A client's command line: pid, command, and any number of further words. */
  datatype Line = Line(pid: string, cmd: string, args: seq<string>)

  function Datagram(l: Line): string {
    Encode([l.pid, l.cmd] + l.args)
  }

  predicate Sendable(l: Line) {
    && l.pid != "" && SpaceFree(l.pid) && PidOf(l.pid).Some?
    && l.cmd != "" && SpaceFree(l.cmd)
    && NulFree(Datagram(l))
    && |Datagram(l)| < BUFFER_SIZE
  }

  lemma DatagramParts(l: Line)
    ensures Datagram(l) == l.pid + " " + l.cmd + " " + Encode(l.args)
  {
    EncodeAppend([l.pid, l.cmd], l.args);
    assert Encode([l.pid, l.cmd]) == l.pid + " " + (l.cmd + " " + "") by {
      assert [l.pid, l.cmd][1..] == [l.cmd];
      assert [l.cmd][1..] == [];
    }
    assert Encode([l.pid, l.cmd]) == l.pid + " " + l.cmd + " ";
  }

  /** A line can be sent when its words are words and it has at most 99 bytes. */
  lemma SendableIff(l: Line)
    ensures var text := l.pid + " " + l.cmd + " " + Encode(l.args);
      Sendable(l) <==>
        && l.pid != "" && SpaceFree(l.pid) && PidOf(l.pid).Some? && l.cmd != "" && SpaceFree(l.cmd)
        && NulFree(text) && |text| <= 99
  {
    hide PidOf, SpaceFree, NulFree, Encode, Datagram;
    DatagramParts(l);
  }

  function OptionalArgs(s: string): Option<string> {
    if s == "" then None else Some(s)
  }

  /** The request a line makes when `stale` is left in the buffer behind it. */
  function RequestOf(l: Line, stale: string): Request
    requires PidOf(l.pid).Some?
  {
    Request(PidOf(l.pid).value, l.cmd, OptionalArgs(Encode(l.args) + stale))
  }

  /**
    Whatever is in the buffer, the daemon reads the pid and the command as sent, and
    as arguments the words sent followed by the stale bytes.
   */
  lemma ParseInStaleBuffer(buf: seq<char>, l: Line)
    requires |buf| == BUFFER_SIZE && Sendable(l)
    ensures ParseMessage(At(Receive(buf, Datagram(l)), 0))
      == Parsed(RequestOf(l, Stale(buf, |Datagram(l)|)))
  {
    var d := Datagram(l);
    var stale := Stale(buf, |d|);
    ReceivedString(buf, d);
    DatagramParts(l);
    assert d + stale == l.pid + " " + l.cmd + " " + (Encode(l.args) + stale);
    ParseFramed(l.pid, l.cmd, Encode(l.args) + stale);
  }

  /** The words that `add` accepts. */
  predicate Acceptable(valid: Validity, ws: seq<string>) {
    |ws| == 2 && valid(Trim(ws[1]))
  }

  /**
    The stale bytes make no difference: `add` is not made good or bad by them, `get`
    and `delete` have a word of their own or find none at all, and `push` has arguments
    of its own or finds none.  An unregistered shell's arguments are not read.
   */
  predicate Unaffected(env: Env, s: State, l: Line, stale: string)
    requires PidOf(l.pid).Some?
  {
    var d, ws, more := Dispatch(l.cmd), Words(Encode(l.args)), Words(stale);
    d.None? || ShellIndex(s.shells, PidOf(l.pid).value) == |s.shells| ||
    match d.value
    case Add => more == [] || (!Acceptable(env.valid, ws) && !Acceptable(env.valid, ws + more))
    case Delete => ws != [] || more == []
    case Get => ws != [] || more == []
    case Push => l.args != [] || stale == ""
    case _ => true
  }

  lemma {:induction false} EncodeEndsInSpace(ws: seq<string>)
    requires ws != []
    ensures Encode(ws) != "" && Encode(ws)[|Encode(ws)| - 1] == ' '
  {
    if |ws| > 1 { EncodeEndsInSpace(ws[1..]); }
  }

  /** Up to the first space nothing behind the last space matters. */
  lemma TrimIgnores(s: string, t: string)
    requires s != "" && s[|s| - 1] == ' '
    ensures Trim(s + t) == Trim(s)
  {
    var n := CSpan(s, {' ', '\n'});
    assert n < |s|;
    CSpanIs(s + t, {' ', '\n'}, n);
  }

  lemma ArgsIgnoreStale(args: seq<string>, stale: string)
    requires args != []
    ensures Trim(Encode(args) + stale) == Trim(Encode(args))
    ensures Words(Encode(args) + stale) == Words(Encode(args)) + Words(stale)
  {
    EncodeEndsInSpace(args);
    TrimIgnores(Encode(args), stale);
    WordsSplit(Encode(args), stale);
  }

  lemma StaleDefined(l: Line, stale: string)
    requires PidOf(l.pid).Some? && NulFree(stale) && Defined(RequestOf(l, ""))
    ensures Defined(RequestOf(l, stale))
    ensures NulFree(Encode(l.args))
  {
    assert Encode(l.args) + "" == Encode(l.args);
    if Encode(l.args) == "" { assert NulFree(Encode(l.args)); }
  }

  /** Equal results are equal outcomes, and a different text is a different reply. */
  lemma OutcomeTells(env: Env, s: State, c: Command, pid: int, a: Option<string>, b: Option<string>)
    requires ShellIndex(s.shells, pid) < |s.shells| && CanHandle(s, c, pid, a) && CanHandle(s, c, pid, b)
    ensures IsStackCommand(c) ==>
      var actions := s.shells[ShellIndex(s.shells, pid)].actions;
      var x, y := OnStack(env.valid, actions, c, a), OnStack(env.valid, actions, c, b);
      && (x == y ==> Handle(env, s, c, pid, a) == Handle(env, s, c, pid, b))
      && (x.text != y.text ==> Handle(env, s, c, pid, a).reply != Handle(env, s, c, pid, b).reply)
    ensures IsTagCommand(c) ==>
      var x, y := OnTags(env.valid, s.tags, c, a), OnTags(env.valid, s.tags, c, b);
      && (x == y ==> Handle(env, s, c, pid, a) == Handle(env, s, c, pid, b))
      && (x.text != y.text ==> Handle(env, s, c, pid, a).reply != Handle(env, s, c, pid, b).reply)
    ensures !IsStackCommand(c) && !IsTagCommand(c) ==> Handle(env, s, c, pid, a) == Handle(env, s, c, pid, b)
  {
    hide OnStack, OnTags, Write;
  }

  /** `add` tells the words behind from none exactly when it accepts one of the two lists. */
  lemma AddTells(valid: Validity, tags: seq<Tag>, a: string, b: string, more: seq<string>)
    requires Words(b) == Words(a) + more
    ensures var x, y := OnTags(valid, tags, Add, Some(a)), OnTags(valid, tags, Add, Some(b));
      if more == [] || (!Acceptable(valid, Words(a)) && !Acceptable(valid, Words(b))) then x == y
      else x.text != y.text
  {
    hide Words, PutTag, Trim;
    assert "OK\n"[0] != "BAD\n"[0];
  }

  lemma WordTells(valid: Validity, tags: seq<Tag>, c: Command, a: string, b: string, more: seq<string>)
    requires (c == Get || c == Delete) && Words(b) == Words(a) + more
    ensures var x, y := OnTags(valid, tags, c, Some(a)), OnTags(valid, tags, c, Some(b));
      if Words(a) != [] || more == [] then x == y else x.text != y.text
  {
    hide Words, Trim, RemoveAt, TagIndex;
  }

  lemma PushTells(valid: Validity, actions: seq<string>, l: Line, stale: string)
    requires PidOf(l.pid).Some?
    ensures var x := OnStack(valid, actions, Push, RequestOf(l, stale).args);
      var y := OnStack(valid, actions, Push, RequestOf(l, "").args);
      if l.args != [] || stale == "" then x == y else x.text != y.text
  {
    assert Encode(l.args) + "" == Encode(l.args);
    if l.args != [] {
      EncodeEndsInSpace(l.args);
      ArgsIgnoreStale(l.args, stale);
      hide Trim, Encode;
    }
  }

  lemma OthersReadNothing(
      valid: Validity, s: State, c: Command, actions: seq<string>, a: Option<string>, b: Option<string>)
    requires !NeedsArgs(c) && c != Push
    ensures IsStackCommand(c) ==> OnStack(valid, actions, c, a) == OnStack(valid, actions, c, b)
    ensures IsTagCommand(c) ==> OnTags(valid, s.tags, c, a) == OnTags(valid, s.tags, c, b)
  {
  }

  lemma UnregisteredReadsNothing(env: Env, s: State, cmd: string, pid: int, a: Option<string>, b: Option<string>)
    requires ShellIndex(s.shells, pid) == |s.shells|
    ensures Act(env, s, Request(pid, cmd, a)) == Act(env, s, Request(pid, cmd, b))
  {
  }

  /**
    For every line and whatever is left behind it in the buffer: it takes the step that
    it takes in a clean buffer exactly when it is unaffected; otherwise the reply tells.
   */
  lemma StepIgnoresStaleIff(env: Env, s: State, l: Line, stale: string)
    requires PidOf(l.pid).Some? && Defined(RequestOf(l, "")) && NulFree(stale)
    ensures Defined(RequestOf(l, stale))
    ensures Step(env, s, RequestOf(l, stale)) == Step(env, s, RequestOf(l, "")) <==> Unaffected(env, s, l, stale)
    ensures Step(env, s, RequestOf(l, stale)).reply == Step(env, s, RequestOf(l, "")).reply
      <==> Unaffected(env, s, l, stale)
  {
    StaleDefined(l, stale);
    var d, pid := Dispatch(l.cmd), PidOf(l.pid).value;
    var i := ShellIndex(s.shells, pid);
    if d.Some? && i < |s.shells| {
      hide Dispatch, Words, Trim, Handle, OnTags, OnStack, Acceptable, Encode, PidOf;
      assert Encode(l.args) + "" == Encode(l.args);
      var c, a, b := d.value, RequestOf(l, "").args, RequestOf(l, stale).args;
      OutcomeTells(env, s, c, pid, b, a);
      if NeedsArgs(c) {
        ArgsIgnoreStale(l.args, stale);
        if c == Add {
          AddTells(env.valid, s.tags, a.value, b.value, Words(stale));
        } else {
          WordTells(env.valid, s.tags, c, a.value, b.value, Words(stale));
        }
      } else if c == Push {
        PushTells(env.valid, s.shells[i].actions, l, stale);
      } else {
        OthersReadNothing(env.valid, s, c, s.shells[i].actions, a, b);
      }
    } else if i == |s.shells| {
      UnregisteredReadsNothing(env, s, l.cmd, pid, RequestOf(l, "").args, RequestOf(l, stale).args);
    }
  }

  /** What the handler formats fits its buffer as in a clean buffer. */
  lemma FitsIgnoresStale(env: Env, s: State, l: Line, stale: string)
    requires PidOf(l.pid).Some? && Defined(RequestOf(l, "")) && NulFree(stale) && Unaffected(env, s, l, stale)
    ensures Defined(RequestOf(l, stale))
    ensures FitsReply(s, RequestOf(l, stale)) <==> FitsReply(s, RequestOf(l, ""))
  {
    StaleDefined(l, stale);
    if Dispatch(l.cmd) == Some(Get) {
      hide Dispatch, Words, Trim;
      assert Encode(l.args) + "" == Encode(l.args);
      ArgsIgnoreStale(l.args, stale);
      WordTells(env.valid, s.tags, Get, Encode(l.args), Encode(l.args) + stale, Words(stale));
    }
  }

  // Runs over the wire

  /** A line that can be sent, and is complete without any stale bytes. */
  predicate Complete(l: Line) {
    Sendable(l) && Defined(RequestOf(l, ""))
  }

  predicate AllComplete(lines: seq<Line>) {
    forall i | 0 <= i < |lines| :: Complete(lines[i])
  }

  predicate BufferSized(bufs: seq<seq<char>>) {
    forall i | 0 <= i < |bufs| :: |bufs[i]| == BUFFER_SIZE
  }

  /** No line of the run is affected by what is behind it in the buffer it arrives in. */
  predicate Undisturbed(env: Env, s: State, lines: seq<Line>, bufs: seq<seq<char>>)
    requires |lines| == |bufs| && AllComplete(lines) && BufferSized(bufs)
    decreases |lines|
  {
    lines == [] ||
    assert Complete(lines[0]);
    && Unaffected(env, s, lines[0], Stale(bufs[0], |Datagram(lines[0])|))
    && Undisturbed(env, Step(env, s, RequestOf(lines[0], "")).state, lines[1..], bufs[1..])
  }

  /** The messages that lines make in those buffers. */
  function Arrived(lines: seq<Line>, bufs: seq<seq<char>>): (ms: seq<Message>)
    requires |lines| == |bufs| && AllComplete(lines) && BufferSized(bufs)
    ensures |ms| == |lines|
  {
    if lines == [] then []
    else
      assert Complete(lines[0]);
      var stale := Stale(bufs[0], |Datagram(lines[0])|);
      StaleDefined(lines[0], stale);
      [RequestOf(lines[0], stale)] + Arrived(lines[1..], bufs[1..])
  }

  /** The messages that they make in a clean buffer. */
  function Intended(lines: seq<Line>): (ms: seq<Message>)
    requires AllComplete(lines)
    ensures |ms| == |lines|
  {
    if lines == [] then []
    else
      assert Complete(lines[0]);
      [RequestOf(lines[0], "")] + Intended(lines[1..])
  }

  /** A run's first reply and the rest of it can be read off. */
  lemma RunFirst(env: Env, s: State, ms: seq<Message>)
    requires ms != []
    ensures var t := Run(env, s, ms); var o := Step(env, s, ms[0]);
      && t.replies != [] && t.replies[0] == o.reply
      && Run(env, o.state, ms[1..]) == Trace(t.state, t.replies[1..])
  {
    hide Step;
  }

  /**
    Stale-buffer independence over runs, for every content of the buffers: the run is
    the one that was meant exactly when no line of it is affected.
   */
  lemma {:induction false} RunIgnoresStaleIff(env: Env, s: State, lines: seq<Line>, bufs: seq<seq<char>>)
    requires |lines| == |bufs| && AllComplete(lines) && BufferSized(bufs)
    ensures Run(env, s, Arrived(lines, bufs)) == Run(env, s, Intended(lines)) <==> Undisturbed(env, s, lines, bufs)
    decreases |lines|
  {
    if lines != [] {
      hide Step, Unaffected, Sendable, Defined, RequestOf;
      assert Complete(lines[0]);
      var stale := Stale(bufs[0], |Datagram(lines[0])|);
      StepIgnoresStaleIff(env, s, lines[0], stale);
      var a, b := Arrived(lines, bufs), Intended(lines);
      assert a[1..] == Arrived(lines[1..], bufs[1..]);
      assert b[1..] == Intended(lines[1..]);
      var next := Step(env, s, b[0]).state;
      RunIgnoresStaleIff(env, next, lines[1..], bufs[1..]);
      RunFirst(env, s, a);
      RunFirst(env, s, b);
    }
  }

  /** What a client's line asks for fits the buffer. */
  lemma {:induction false} IntendedFits(lines: seq<Line>)
    requires AllComplete(lines)
    ensures AllWireSized(Intended(lines))
  {
    if lines != [] {
      assert Complete(lines[0]);
      DatagramParts(lines[0]);
      assert Encode(lines[0].args) + "" == Encode(lines[0].args);
      IntendedFits(lines[1..]);
    }
  }

  // Commands that stale bytes do affect

  lemma AddAnswered(env: Env, s: State, m: Message)
    requires Dispatch(m.cmd) == Some(Add) && StackOf(s.shells, m.pid).Some?
    ensures TextOf(Step(env, s, m).reply) == Some("OK\n") <==> Acceptable(env.valid, Words(m.args.value))
  {
    hide Words, Trim, PutTag;
    assert "OK\n"[0] != "BAD\n"[0];
  }

  /**
    An `add` that is answered OK in a clean buffer is answered OK exactly when only
    spaces stand between it and the next NUL; one that is not, exactly when the stale
    words make it good.
   */
  lemma AddIgnoresStaleIff(env: Env, s: State, l: Line, stale: string)
    requires PidOf(l.pid).Some? && Dispatch(l.cmd) == Some(Add) && Defined(RequestOf(l, "")) && NulFree(stale)
    requires StackOf(s.shells, PidOf(l.pid).value).Some?
    ensures Defined(RequestOf(l, stale))
    ensures var dirty := TextOf(Step(env, s, RequestOf(l, stale)).reply) == Some("OK\n");
      if TextOf(Step(env, s, RequestOf(l, "")).reply) == Some("OK\n")
      then dirty <==> forall k | 0 <= k < |stale| :: stale[k] == ' '
      else dirty <==> Acceptable(env.valid, Words(Encode(l.args)) + Words(stale))
  {
    hide Dispatch, Trim;
    StaleDefined(l, stale);
    NoWordsIffBlank(stale);
    ArgsIgnoreStale(l.args, stale);
    assert Encode(l.args) + "" == Encode(l.args);
    AddAnswered(env, s, RequestOf(l, ""));
    AddAnswered(env, s, RequestOf(l, stale));
  }

  lemma PidOne()
    ensures PidOf("1") == Some(1)
  {
    ParsePrint(1);
    assert PrintInt(1) == "1";
  }

  lemma OneWord(w: string)
    requires w != "" && SpaceFree(w)
    ensures Encode([w]) == w + " " && Words(w + " ") == [w]
  {
    assert [w][1..] == [];
    assert Encode([w]) == w + " " + "";
    assert w + " " + "" == w + " ";
    WordsCons(w, "");
    assert Words("") == [];
  }

  lemma AddText()
    ensures "t" + " " == "t " && "t " + "" == "t " && "t " + "/tmp " == AddArgs("t", "/tmp")
    ensures NulFree("t ") && NulFree(AddArgs("t", "/tmp")) && SpaceFree("t") && "t" != ""
  {
  }

  lemma DispatchAdd()
    ensures Dispatch("add") == Some(Add)
  {
    DispatchIff("add", 2);
  }

  lemma RequestOfWord(pid: string, cmd: string, w: string, stale: string)
    requires PidOf(pid).Some? && w != "" && SpaceFree(w)
    ensures RequestOf(Line(pid, cmd, [w]), stale) == Request(PidOf(pid).value, cmd, Some(w + " " + stale))
  {
    hide PidOf, Encode, SpaceFree, Words;
    OneWord(w);
  }

  /** The line `1 add t`, alone and with `/tmp` left behind it. */
  lemma AddT()
    ensures PidOf("1") == Some(1) && Dispatch("add") == Some(Add)
    ensures RequestOf(Line("1", "add", ["t"]), "") == Request(1, "add", Some("t "))
    ensures RequestOf(Line("1", "add", ["t"]), "/tmp ") == Request(1, "add", Some(AddArgs("t", "/tmp")))
    ensures NulFree("t ") && NulFree(AddArgs("t", "/tmp"))
  {
    hide *;
    PidOne();
    DispatchAdd();
    AddText();
    RequestOfWord("1", "add", "t", "");
    RequestOfWord("1", "add", "t", "/tmp ");
  }

  /** For instance, `add t` then adds a tag that nobody asked for. */
  lemma StaleWordIsAdded(env: Env, s: State)
    requires env.valid("/tmp") && StackOf(s.shells, 1).Some?
    ensures PidOf("1") == Some(1)
    ensures var l := Line("1", "add", ["t"]); Defined(RequestOf(l, "")) && Defined(RequestOf(l, "/tmp "))
    ensures TextOf(Step(env, s, RequestOf(Line("1", "add", ["t"]), "")).reply) != Some("OK\n")
    ensures var o := Step(env, s, RequestOf(Line("1", "add", ["t"]), "/tmp "));
      TextOf(o.reply) == Some("OK\n") && Lookup(o.state.tags, "t") == Some("/tmp")
  {
    hide Dispatch, PidOf, RequestOf, Words, Step, Lookup, StackOf;
    AddT();
    var alone: Message := Request(1, "add", Some("t "));
    var behind: Message := Request(1, "add", Some(AddArgs("t", "/tmp")));
    OneWord("t");
    assert "t" + " " == "t ";
    AddAnswered(env, s, alone);
    AddAccepts(env, s, behind, "t", "/tmp");
    OkIffChanged(env, s, behind);
    StepChanges(env, s, behind);
    PutTagMap(s.tags, Tag("t", "/tmp"), "t");
  }

  // The client's loop

  lemma {:induction false} EncodeSnoc(ws: seq<string>, w: string)
    ensures Encode(ws + [w]) == Encode(ws) + w + " "
  {
    EncodeAppend(ws, [w]);
    assert [w][1..] == [];
    assert Encode([w]) == w + " " + "";
    assert Encode(ws) + (w + " ") == Encode(ws) + w + " ";
  }

  lemma {:induction false} EncodePrefix(ws: seq<string>, n: nat)
    requires n <= |ws|
    ensures |Encode(ws[..n])| <= |Encode(ws)|
  {
    assert ws == ws[..n] + ws[n..];
    EncodeAppend(ws[..n], ws[n..]);
  }

  /**
    The encoding loop of `process_command`, on its 1024-byte buffer.  It stops where the
    program would write behind the buffer.
   */
  method ProcessCommand(argv: seq<string>) returns (buf: array<char>, offset: nat, overrun: bool)
    requires forall i | 0 <= i < |argv| :: NulFree(argv[i])
    ensures fresh(buf) && buf.Length == 1024 && offset < 1024
    ensures overrun <==> |Encode(argv)| >= 1024
    ensures !overrun ==> buf[..offset] == Encode(argv) && buf[offset] == '\0'
  {
    buf := new char[1024](_ => '\0');
    offset, overrun := 0, false;
    var i := 0;
    while i < |argv|
      invariant 0 <= i <= |argv|
      invariant offset == |Encode(argv[..i])| < 1024
      invariant buf[..offset] == Encode(argv[..i]) && buf[offset] == '\0'
    {
      assert argv[..i + 1] == argv[..i] + [argv[i]];
      EncodeSnoc(argv[..i], argv[i]);
      EncodePrefix(argv, i + 1);
      if offset + |argv[i] + " "| >= 1024 {
        return buf, offset, true;
      }
      offset := Sprintf(buf, offset, argv[i] + " ");
      i := i + 1;
    }
    assert argv[..i] == argv;
  }
}
