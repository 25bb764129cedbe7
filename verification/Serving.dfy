/**
  Serving datagrams, on values: a function of the datagrams alone, for what each message
  leaves in the reused buffer is part of it.

  Whatever arrives, serving is a run of messages.  For clients' messages that no stale
  byte affects, it is the run of the messages the clients meant.
 */
module Serving {
  import opened CString
  import opened Decimal
  import opened TagFile
  import opened Daemon
  import opened ReceiveBuffer
  import opened CommandTable
  import opened Isolation
  import opened ActionStack
  import opened RoundTrip
  import opened Reload
  import opened TagMap
  import opened Restart
  import opened Wire

  /**
    Why the loop ends: no more datagrams, a pid beyond `long`, or one of three messages
    on which the program's behaviour is undefined.  A message without a NUL behind it
    leads out of the buffer, a registered shell's `add`, `delete` or `get` without
    arguments dereferences NULL, and a reply that does not fit its buffer overruns it.
   */
  datatype LoopEnd = NoMore | PidOutOfRange | Unterminated | NullArgs | Overrun

  datatype Turn = Turn(state: State, reply: Option<Reply>, end: LoopEnd)

  /** One message, given the string that the buffer starts with. */
  function Hear(env: Env, s: State, text: string): Turn {
    match ParseMessage(text)
    case Ignored => Turn(s, None, NoMore)
    case OutOfRange => Turn(s, None, PidOutOfRange)
    case Parsed(r) =>
      if !CanAct(s, r) then Turn(s, None, NullArgs)
      else if !FitsReply(s, r) then Turn(s, None, Overrun)
      else
        var o := Act(env, s, r);
        Turn(o.state, o.reply, NoMore)
  }

  /** An empty datagram is not looked at. */
  function Arrives(env: Env, s: State, buf: seq<char>, datagram: string): Turn {
    var b := Receive(buf, datagram);
    if datagram == "" || buf == [] then Turn(s, None, NoMore)
    else if !Terminated(b, 0) then Turn(s, None, Unterminated)
    else Hear(env, s, At(b, 0))
  }

  /** What the datagram, and parsing and handling it, leave in the buffer. */
  function BufferLeft(s: State, buf: seq<char>, datagram: string): (r: seq<char>)
    ensures |r| == |buf|
    ensures OnlyCut(Receive(buf, datagram), r, 0)
  {
    var b := Receive(buf, datagram);
    if datagram == "" || !Terminated(b, 0) then b else BufferAfter(s, b)
  }

  datatype Served = Served(state: State, replies: seq<Option<Reply>>, end: LoopEnd)

  /** A run of datagrams, up to one that ends the loop. */
  function Serve(env: Env, s: State, buf: seq<char>, datagrams: seq<string>): Served
    decreases |datagrams|
  {
    if datagrams == [] then Served(s, [], NoMore)
    else
      var t := Arrives(env, s, buf, datagrams[0]);
      if t.end != NoMore then Served(t.state, [t.reply], t.end)
      else
        var rest := Serve(env, t.state, BufferLeft(s, buf, datagrams[0]), datagrams[1..]);
        Served(rest.state, [t.reply] + rest.replies, rest.end)
  }

  const CLEAR: seq<char> := seq(BUFFER_SIZE, _ => '\0')

  lemma ServeNone(env: Env, s: State, buf: seq<char>)
    ensures Serve(env, s, buf, []) == Served(s, [], NoMore)
  {
  }

  // Whatever arrives

  /** The message, if there is one in the buffer that does not end the loop. */
  function MessageIn(s: State, buf: seq<char>, datagram: string): (ms: seq<Message>) {
    var b := Receive(buf, datagram);
    if datagram == "" || !Terminated(b, 0) then []
    else
      var p := ParseMessage(At(b, 0));
      if p.Parsed? && Defined(p.request) && FitsReply(s, p.request) then [p.request] else []
  }

  /** The messages that a run of datagrams comes to. */
  function ActedOn(env: Env, s: State, buf: seq<char>, datagrams: seq<string>): seq<Message>
    decreases |datagrams|
  {
    if datagrams == [] then []
    else
      var t := Arrives(env, s, buf, datagrams[0]);
      if t.end != NoMore then []
      else
        MessageIn(s, buf, datagrams[0])
        + ActedOn(env, t.state, BufferLeft(s, buf, datagrams[0]), datagrams[1..])
  }

  /** What is sent in a run. */
  function Sent(replies: seq<Option<Reply>>): seq<Reply> {
    if replies == [] then []
    else (if replies[0].Some? then [replies[0].value] else []) + Sent(replies[1..])
  }

  lemma ParsedNulFree(text: string)
    requires NulFree(text) && ParseMessage(text).Parsed?
    ensures ParseMessage(text).request.args.Some? ==> NulFree(ParseMessage(text).request.args.value)
  {
    var t := Skip(text, {' '});
    var u := Skip(After(t, {' '}), {' '});
    assert NulFree(t) && NulFree(After(t, {' '})) && NulFree(u);
  }

  lemma UnregisteredIsSilent(env: Env, s: State, r: Request)
    requires CanAct(s, r) && !Defined(r) && (r.args.Some? ==> NulFree(r.args.value))
    ensures Act(env, s, r) == Outcome(s, None)
  {
  }

  /** A message that ends nothing is a step, or says nothing and changes nothing. */
  lemma ArrivesActs(env: Env, s: State, buf: seq<char>, datagram: string)
    requires |buf| == BUFFER_SIZE && Arrives(env, s, buf, datagram).end == NoMore
    ensures var t, ms := Arrives(env, s, buf, datagram), MessageIn(s, buf, datagram);
      if ms == [] then t.state == s && t.reply == None
      else |ms| == 1 && Step(env, s, ms[0]) == Outcome(t.state, t.reply) && WireSized(ms[0])
  {
    hide ParseMessage, WireSized, Handle;
    var b := Receive(buf, datagram);
    if datagram != "" {
      var text := At(b, 0);
      var p := ParseMessage(text);
      if p.Parsed? {
        ParsedFits(text);
        ParsedNulFree(text);
        if !Defined(p.request) {
          UnregisteredIsSilent(env, s, p.request);
        }
      }
    }
  }

  lemma EndIsSilent(env: Env, s: State, buf: seq<char>, datagram: string)
    requires Arrives(env, s, buf, datagram).end != NoMore
    ensures Arrives(env, s, buf, datagram).state == s && Arrives(env, s, buf, datagram).reply == None
  {
    hide ParseMessage, Act, CanAct, FitsReply, Receive, Terminated, At;
  }

  lemma SentCons(reply: Option<Reply>, replies: seq<Option<Reply>>)
    ensures Sent([reply] + replies) == (if reply.Some? then [reply.value] else []) + Sent(replies)
  {
    assert ([reply] + replies)[1..] == replies;
  }

  lemma RunCons(env: Env, s: State, m: Message, rest: seq<Message>)
    ensures var o := Step(env, s, m); var t := Run(env, o.state, rest);
      Run(env, s, [m] + rest) == Trace(t.state, [o.reply] + t.replies)
  {
    assert ([m] + rest)[1..] == rest;
  }

  /** One message or none in front of a run. */
  lemma RunBehind(env: Env, s: State, o: Outcome, here: seq<Message>, rest: seq<Message>)
    requires if here == [] then o == Outcome(s, None)
      else |here| == 1 && Step(env, s, here[0]) == o && WireSized(here[0])
    requires AllWireSized(rest)
    ensures AllWireSized(here + rest)
    ensures Run(env, s, here + rest).state == Run(env, o.state, rest).state
    ensures Sent(Run(env, s, here + rest).replies) ==
      (if o.reply.Some? then [o.reply.value] else []) + Sent(Run(env, o.state, rest).replies)
  {
    hide Run, Sent, Step, WireSized;
    if here == [] {
      assert here + rest == rest;
    } else {
      RunCons(env, s, here[0], rest);
      SentCons(o.reply, Run(env, o.state, rest).replies);
      assert here + rest == [here[0]] + rest;
    }
  }

  /**
    Whatever datagrams arrive, well-formed or not, the daemon takes the steps of some
    run of messages that fit the buffer, and sends what that run sends.
   */
  lemma {:induction false} ServeActs(env: Env, s: State, buf: seq<char>, datagrams: seq<string>)
    requires |buf| == BUFFER_SIZE
    ensures var r, ms := Serve(env, s, buf, datagrams), ActedOn(env, s, buf, datagrams);
      && AllWireSized(ms)
      && Run(env, s, ms).state == r.state
      && Sent(Run(env, s, ms).replies) == Sent(r.replies)
    decreases |datagrams|
  {
    if datagrams != [] {
      hide Arrives, BufferLeft, MessageIn, Step, AllWireSized, Sent, Run;
      var t := Arrives(env, s, buf, datagrams[0]);
      if t.end == NoMore {
        var left := BufferLeft(s, buf, datagrams[0]);
        var here, rest := MessageIn(s, buf, datagrams[0]), ActedOn(env, t.state, left, datagrams[1..]);
        ArrivesActs(env, s, buf, datagrams[0]);
        ServeActs(env, t.state, left, datagrams[1..]);
        SentCons(t.reply, Serve(env, t.state, left, datagrams[1..]).replies);
        RunBehind(env, s, Outcome(t.state, t.reply), here, rest);
      } else {
        EndIsSilent(env, s, buf, datagrams[0]);
        SentCons(t.reply, []);
      }
    }
  }

  /** What holds of every state that the daemon can reach. */
  predicate Sound(env: Env, s: State) {
    && ShellsOk(env, s.shells)
    && GoodStacks(env.valid, s.shells) && ShortStacks(s.shells)
    && CleanTags(s.tags) && Fits(s.tags)
  }

  /**
    Safety over every run: whatever datagrams arrive, no two shells share a pid, stacks
    have no adjacent repeats and no path too long for a reply, and tags have distinct
    names that the file can hold.
   */
  lemma ServeIsSound(env: Env, content: string, buf: seq<char>, datagrams: seq<string>)
    requires |buf| == BUFFER_SIZE
    ensures Sound(env, Serve(env, Start(env, content), buf, datagrams).state)
  {
    hide Serve, ActedOn, Read, Run;
    var s, ms := Start(env, content), ActedOn(env, Start(env, content), buf, datagrams);
    ServeActs(env, s, buf, datagrams);
    ReadShape(content, env.valid);
    RunKeepsShells(env, s, ms);
    RunStacks(env, s, ms);
    RunTags(env, s, ms);
  }

  /**
    Restart, exactly, over every run: whatever datagrams arrive, reading the file again
    gives the tags in memory exactly when no message saved or the tags are restorable.
   */
  lemma ServeRestartIff(env: Env, content: string, buf: seq<char>, datagrams: seq<string>)
    requires |buf| == BUFFER_SIZE && !env.valid("")
    ensures var s0 := Start(env, content); var s := Serve(env, s0, buf, datagrams).state;
      Read(s.file, env.valid) == s.tags
      <==> !AnySaves(env, s0, ActedOn(env, s0, buf, datagrams)) || Restorable(s.tags, env.valid)
  {
    hide *;
    ServeActs(env, Start(env, content), buf, datagrams);
    RestartIff(env, content, ActedOn(env, Start(env, content), buf, datagrams));
  }

  /** If the loaded tags are safe and only good names are added, restarting gives the same tags. */
  lemma {:induction false} RestartAfterServing(env: Env, content: string, buf: seq<char>, datagrams: seq<string>)
    requires |buf| == BUFFER_SIZE && !env.valid("") && Safe(Read(content, env.valid), env.valid)
    requires var ms := ActedOn(env, Start(env, content), buf, datagrams);
      forall i | 0 <= i < |ms| :: AddsGoodName(ms[i])
    ensures var s := Serve(env, Start(env, content), buf, datagrams).state;
      Start(env, s.file).tags == s.tags
  {
    hide *;
    ServeActs(env, Start(env, content), buf, datagrams);
    RestartReproducesTags(env, content, ActedOn(env, Start(env, content), buf, datagrams));
  }

  /**
    Isolation over every run: whatever datagrams arrive, a pid's registration and stack
    are those of its own machine on its own messages among them.
   */
  lemma ServeIsLocal(env: Env, s: State, buf: seq<char>, datagrams: seq<string>, pid: int)
    requires |buf| == BUFFER_SIZE && ShellsOk(env, s.shells)
    ensures StackOf(Serve(env, s, buf, datagrams).state.shells, pid)
      == LocalRun(env.valid, StackOf(s.shells, pid), Only(ActedOn(env, s, buf, datagrams), pid)).stack
  {
    hide *;
    ServeActs(env, s, buf, datagrams);
    RunIsLocal(env, s, ActedOn(env, s, buf, datagrams), pid);
  }

  // Serving clients is running their messages

  function Datagrams(lines: seq<Line>): seq<string> {
    seq(|lines|, i requires 0 <= i < |lines| => Datagram(lines[i]))
  }

  /** The buffers that the datagrams arrive in. */
  function Arrivals(env: Env, s: State, buf: seq<char>, datagrams: seq<string>): (bufs: seq<seq<char>>)
    ensures |bufs| == |datagrams| && forall i | 0 <= i < |bufs| :: |bufs[i]| == |buf|
    decreases |datagrams|
  {
    if datagrams == [] then []
    else
      [buf] + Arrivals(env, Arrives(env, s, buf, datagrams[0]).state, BufferLeft(s, buf, datagrams[0]), datagrams[1..])
  }

  /** Client messages keep the last byte of the buffer NUL. */
  lemma LeftIsBuffer(s: State, buf: seq<char>, datagram: string)
    requires IsBuffer(buf) && |datagram| < BUFFER_SIZE
    ensures IsBuffer(BufferLeft(s, buf, datagram))
  {
    hide BufferLeft;
    ReceiveKeepsNul(buf, datagram);
  }

  /** Over every run of messages of at most 99 bytes. */
  lemma {:induction false} ArrivalsAreBuffers(env: Env, s: State, buf: seq<char>, datagrams: seq<string>)
    requires IsBuffer(buf) && forall i | 0 <= i < |datagrams| :: |datagrams[i]| < BUFFER_SIZE
    ensures forall i | 0 <= i < |datagrams| :: IsBuffer(Arrivals(env, s, buf, datagrams)[i])
    decreases |datagrams|
  {
    if datagrams != [] {
      hide BufferLeft, IsBuffer, Arrives;
      var left, next := BufferLeft(s, buf, datagrams[0]), Arrives(env, s, buf, datagrams[0]).state;
      LeftIsBuffer(s, buf, datagrams[0]);
      ArrivalsAreBuffers(env, next, left, datagrams[1..]);
    }
  }

  /** An unaffected line takes the step it was meant to take. */
  lemma ArrivesIsStep(env: Env, s: State, buf: seq<char>, l: Line)
    requires |buf| == BUFFER_SIZE && Complete(l) && Unaffected(env, s, l, Stale(buf, |Datagram(l)|))
    requires Terminated(Receive(buf, Datagram(l)), 0) && FitsReply(s, RequestOf(l, ""))
    ensures var o := Step(env, s, RequestOf(l, ""));
      Arrives(env, s, buf, Datagram(l)) == Turn(o.state, o.reply, NoMore)
  {
    hide Unaffected, ParseMessage, Handle, ReplyFits;
    var stale := Stale(buf, |Datagram(l)|);
    ParseInStaleBuffer(buf, l);
    StepIgnoresStaleIff(env, s, l, stale);
    FitsIgnoresStale(env, s, l, stale);
    DatagramParts(l);
    assert Datagram(l) != "";
  }

  /** Every reply of the run fits its buffer. */
  predicate RunFits(env: Env, s: State, ms: seq<Message>)
    decreases |ms|
  {
    ms == [] || (FitsReply(s, ms[0]) && RunFits(env, Step(env, s, ms[0]).state, ms[1..]))
  }

  lemma DatagramsCons(lines: seq<Line>)
    requires lines != []
    ensures Datagrams(lines)[0] == Datagram(lines[0]) && Datagrams(lines)[1..] == Datagrams(lines[1..])
  {
  }

  lemma LinesFit(lines: seq<Line>)
    requires AllComplete(lines)
    ensures forall i | 0 <= i < |lines| :: |Datagrams(lines)[i]| < BUFFER_SIZE
  {
    forall i | 0 <= i < |lines| ensures |Datagrams(lines)[i]| < BUFFER_SIZE {
      assert Complete(lines[i]);
    }
  }

  /**
    Serving undisturbed lines is a run of the messages they were meant to be, each of
    which fits the buffer: what is proved of runs holds of it.
   */
  lemma {:induction false} ServeIsRun(env: Env, s: State, buf: seq<char>, lines: seq<Line>)
    requires IsBuffer(buf) && AllComplete(lines)
    requires Undisturbed(env, s, lines, Arrivals(env, s, buf, Datagrams(lines)))
    requires RunFits(env, s, Intended(lines))
    ensures AllWireSized(Intended(lines))
    ensures var t := Run(env, s, Intended(lines));
      Serve(env, s, buf, Datagrams(lines)) == Served(t.state, t.replies, NoMore)
    decreases |lines|
  {
    IntendedFits(lines);
    if lines != [] {
      hide Arrives, BufferLeft, Unaffected, Sendable, Step, FitsReply, RequestOf, Datagram, Defined;
      hide AllWireSized, IsBuffer;
      DatagramsCons(lines);
      assert Complete(lines[0]);
      var m: Message, rest := RequestOf(lines[0], ""), lines[1..];
      var left := BufferLeft(s, buf, Datagram(lines[0]));
      assert Intended(lines)[1..] == Intended(rest);
      assert Arrivals(env, s, buf, Datagrams(lines))[0] == buf;
      LinesFit(lines);
      ReceiveKeepsNul(buf, Datagram(lines[0]));
      ArrivesIsStep(env, s, buf, lines[0]);
      assert Arrivals(env, s, buf, Datagrams(lines))[1..]
        == Arrivals(env, Step(env, s, m).state, left, Datagrams(rest));
      LinesFit(lines);
      LeftIsBuffer(s, buf, Datagram(lines[0]));
      ServeIsRun(env, Step(env, s, m).state, left, rest);
    }
  }

  /** The lines of one shell. */
  function OnlyLines(lines: seq<Line>, pid: int): (r: seq<Line>)
    requires AllComplete(lines)
    ensures AllComplete(r)
  {
    if lines == [] then []
    else
      assert Complete(lines[0]);
      (if PidOf(lines[0].pid).value == pid then [lines[0]] else []) + OnlyLines(lines[1..], pid)
  }

  lemma {:induction false} OnlyIntended(lines: seq<Line>, pid: int)
    requires AllComplete(lines)
    ensures Intended(OnlyLines(lines, pid)) == Only(Intended(lines), pid)
  {
    if lines != [] {
      hide PidOf, Sendable, Defined;
      assert Complete(lines[0]);
      var m: Message := RequestOf(lines[0], "");
      OnlyIntended(lines[1..], pid);
      assert Intended(lines) == [m] + Intended(lines[1..]);
      assert Intended(lines)[1..] == Intended(lines[1..]);
      if m.pid == pid {
        assert OnlyLines(lines, pid)[1..] == OnlyLines(lines[1..], pid);
      } else {
        assert OnlyLines(lines, pid) == OnlyLines(lines[1..], pid);
      }
    }
  }

  /** None of these lines is affected by stale bytes, and every reply fits. */
  predicate Smooth(env: Env, s: State, buf: seq<char>, lines: seq<Line>)
    requires |buf| == BUFFER_SIZE && AllComplete(lines)
  {
    && Undisturbed(env, s, lines, Arrivals(env, s, buf, Datagrams(lines)))
    && RunFits(env, s, Intended(lines))
  }

  /**
    Isolation by projection, for datagrams: leaving out every other shell's lines changes
    neither a pid's registration nor its stack nor what it hears.
   */
  lemma ServeIsolation(env: Env, s: State, buf: seq<char>, lines: seq<Line>, pid: int)
    requires ShellsOk(env, s.shells) && IsBuffer(buf) && AllComplete(lines)
    requires Smooth(env, s, buf, lines) && Smooth(env, s, buf, OnlyLines(lines, pid))
    ensures var mine := OnlyLines(lines, pid);
      var t, u := Serve(env, s, buf, Datagrams(lines)), Serve(env, s, buf, Datagrams(mine));
      && StackOf(t.state.shells, pid) == StackOf(u.state.shells, pid)
      && |t.replies| == |lines| && |u.replies| == |mine|
      && Heard(Intended(lines), t.replies, pid) == Heard(Intended(mine), u.replies, pid)
  {
    hide Serve, Run, Heard, StackOf, ShellsOk, Undisturbed, RunFits;
    hide AllWireSized, AllComplete, Only, OnlyLines, IsBuffer;
    ServeIsRun(env, s, buf, lines);
    ServeIsRun(env, s, buf, OnlyLines(lines, pid));
    OnlyIntended(lines, pid);
    IsolationByProjection(env, s, Intended(lines), pid);
  }

  /** The buffer after some datagrams. */
  function BufferThen(env: Env, s: State, buf: seq<char>, datagrams: seq<string>): (r: seq<char>)
    ensures |r| == |buf|
    decreases |datagrams|
  {
    if datagrams == [] then buf
    else
      BufferThen(env, Arrives(env, s, buf, datagrams[0]).state, BufferLeft(s, buf, datagrams[0]), datagrams[1..])
  }

  predicate ClearFrom(buf: seq<char>, n: nat) {
    forall k | n <= k < |buf| :: buf[k] == '\0'
  }

  /** Behind the longest message so far a clear buffer is still clear. */
  lemma {:induction false} ClearBehind(env: Env, s: State, buf: seq<char>, datagrams: seq<string>, n: nat)
    requires ClearFrom(buf, n) && forall i | 0 <= i < |datagrams| :: |datagrams[i]| <= n
    ensures ClearFrom(BufferThen(env, s, buf, datagrams), n)
    decreases |datagrams|
  {
    if datagrams != [] {
      hide BufferLeft, Arrives;
      var b := Receive(buf, datagrams[0]);
      assert forall k | n <= k < |b| :: b[k] == '\0';
      assert ClearFrom(BufferLeft(s, buf, datagrams[0]), n);
      ClearBehind(env, Arrives(env, s, buf, datagrams[0]).state, BufferLeft(s, buf, datagrams[0]), datagrams[1..], n);
    }
  }

  /** So no stale byte follows a message that no earlier one exceeds in length. */
  lemma LongestIsClean(env: Env, s: State, datagrams: seq<string>, datagram: string)
    requires |datagram| < BUFFER_SIZE && forall i | 0 <= i < |datagrams| :: |datagrams[i]| <= |datagram|
    ensures Stale(BufferThen(env, s, CLEAR, datagrams), |datagram|) == ""
  {
    hide BufferThen;
    ClearBehind(env, s, CLEAR, datagrams, |datagram|);
  }

  // Exactly what a client's message leaves

  lemma FirstSpans(w: string, t: string)
    requires w != "" && SpaceFree(w)
    ensures var s := w + " " + t;
      s[0..] == s && Span(s, {' '}) == 0 && CSpan(s, {' '}) == |w| && s[|w| + 1..] == t && s[..|w|] == w
  {
    var s := w + " " + t;
    assert forall k | 0 <= k < |w| :: s[k] == w[k];
    assert s[|w|] == ' ';
    SpanIs(s, {' '}, 0);
    CSpanIs(s, {' '}, |w|);
  }

  lemma ByteAt(b: seq<char>, start: nat, n: nat)
    requires Terminated(b, start) && n < |At(b, start)|
    ensures start + n < |b| && b[start + n] == At(b, start)[n] != '\0'
  {
  }

  lemma TokenCut(b: seq<char>, start: nat)
    requires Terminated(b, start) && Span(At(b, start), {' '}) == 0
    requires CSpan(At(b, start), {' '}) < |At(b, start)|
    ensures var s := At(b, start); var j := start + CSpan(s, {' '});
      && j < |b| && Strtok(b, start, {' '}) == Token(b[j := '\0'], start, j + 1)
      && At(b[j := '\0'], start) == s[..j - start] && At(b[j := '\0'], j + 1) == s[j - start + 1..]
  {
    hide Strtok, Span, CSpan, At, End;
    var s := At(b, start);
    var n := CSpan(s, {' '});
    ByteAt(b, start, n);
    assert s[0..] == s;
    StrtokSpans(b, start, {' '});
    CutSplits(b, start, 0, n);
  }

  lemma FirstCut(b: seq<char>, start: nat, w: string, t: string)
    requires Terminated(b, start) && At(b, start) == w + " " + t && w != "" && SpaceFree(w)
    ensures start + |w| < |b|
    ensures Strtok(b, start, {' '}) == Token(b[start + |w| := '\0'], start, start + |w| + 1)
    ensures At(b[start + |w| := '\0'], start) == w && At(b[start + |w| := '\0'], start + |w| + 1) == t
  {
    hide Strtok, Span, CSpan, At, End, SpaceFree;
    FirstSpans(w, t);
    TokenCut(b, start);
  }

  lemma NothingCut(b: seq<char>, start: nat)
    requires Terminated(b, start)
    ensures Strtok(b, start, {}).buf == b
  {
    StrtokCuts(b, start, {});
  }

  /** The spaces behind pid and command become NUL, and nothing else changes. */
  lemma FramedCuts(b: seq<char>, pid: string, cmd: string, tail: string)
    requires Terminated(b, 0) && At(b, 0) == pid + " " + (cmd + " " + tail) && PidOf(pid).Some?
    requires pid != "" && SpaceFree(pid) && cmd != "" && SpaceFree(cmd)
    ensures |pid| + |cmd| + 1 < |b|
    ensures Tokenised(b).tokens.Tokens? && Tokenised(b).tokens.cmd == cmd
    ensures Tokenised(b).buf == b[|pid| := '\0'][|pid| + 1 + |cmd| := '\0']
  {
    hide Strtok, At, End, PidOf;
    FirstCut(b, 0, pid, cmd + " " + tail);
    var b1 := Strtok(b, 0, {' '}).buf;
    FirstCut(b1, |pid| + 1, cmd, tail);
    var c := Strtok(b1, |pid| + 1, {' '});
    NothingCut(c.buf, c.save);
  }

  /** A `push` cuts its pid and its command off, and nothing else. */
  lemma PushCuts(s: State, b: seq<char>, pid: string, cmd: string, tail: string)
    requires Terminated(b, 0) && At(b, 0) == pid + " " + (cmd + " " + tail) && PidOf(pid).Some?
    requires pid != "" && SpaceFree(pid) && cmd != "" && SpaceFree(cmd) && Dispatch(cmd) == Some(Push)
    ensures |pid| + |cmd| + 1 < |b|
    ensures BufferAfter(s, b) == b[|pid| := '\0'][|pid| + 1 + |cmd| := '\0']
  {
    hide PidOf, Dispatch, Tokenised, At, Terminated;
    FramedCuts(b, pid, cmd, tail);
  }

  /** What the handlers cut besides: only those of a registered shell's `add`, `get` and `delete`. */
  lemma OthersCutNothing(s: State, c: Command, pid: int, b: seq<char>, args: int)
    requires IsPointer(b, args)
    requires StackOf(s.shells, pid).None? || args < 0 || !(c == Add || c == Get || c == Delete)
    ensures CommandCut(s, c, pid, b, args) == b
  {
  }

  lemma NoCalls(b: seq<char>, start: nat)
    requires Terminated(b, start)
    ensures CutWords(b, start, 0) == b
  {
  }

  /** The next word of the arguments is cut off behind `lead` and itself, if there are calls left. */
  lemma WordIsCut(b: seq<char>, start: nat, n: nat, w: string, t: string)
    requires Terminated(b, start) && At(b, start) == w + " " + t && w != "" && SpaceFree(w)
    ensures start + |w| + 1 < |b| && Terminated(b[start + |w| := '\0'], start + |w| + 1)
    ensures At(b[start + |w| := '\0'], start + |w| + 1) == t
    ensures CutWords(b, start, n + 1) == CutWords(b[start + |w| := '\0'], start + |w| + 1, n)
  {
    hide Strtok, At, SpaceFree;
    FirstCut(b, start, w, t);
    assert Terminated(Strtok(b, start, {' '}).buf, Strtok(b, start, {' '}).save);
  }

  /** `get` and `delete` cut off their first word and leave the rest as it is. */
  lemma OneWordIsCut(s: State, c: Command, pid: int, b: seq<char>, args: int, w: string, t: string)
    requires Terminated(b, args) && At(b, args) == w + " " + t && w != "" && SpaceFree(w)
    requires StackOf(s.shells, pid).Some? && (c == Get || c == Delete)
    ensures args + |w| < |b| && CommandCut(s, c, pid, b, args) == b[args + |w| := '\0']
  {
    hide CutWords, At, SpaceFree, End;
    WordIsCut(b, args, 0, w, t);
    NoCalls(b[args + |w| := '\0'], args + |w| + 1);
  }

  /** `add` cuts off up to three words, the third to find that there are too many. */
  lemma ThreeWordsAreCut(s: State, pid: int, b: seq<char>, args: int, u: string, v: string, w: string, t: string)
    requires Terminated(b, args) && At(b, args) == u + " " + (v + " " + (w + " " + t))
    requires u != "" && SpaceFree(u) && v != "" && SpaceFree(v) && w != "" && SpaceFree(w)
    requires StackOf(s.shells, pid).Some?
    ensures var i := args + |u|; var j := i + 1 + |v|; var k := j + 1 + |w|;
      k < |b| && CommandCut(s, Add, pid, b, args) == b[i := '\0'][j := '\0'][k := '\0']
  {
    hide CutWords, At, SpaceFree, End;
    var i := args + |u|;
    var j := i + 1 + |v|;
    WordIsCut(b, args, 2, u, v + " " + (w + " " + t));
    WordIsCut(b[i := '\0'], i + 1, 1, v, w + " " + t);
    WordIsCut(b[i := '\0'][j := '\0'], j + 1, 0, w, t);
    NoCalls(b[i := '\0'][j := '\0'][j + 1 + |w| := '\0'], j + 1 + |w| + 1);
  }

  lemma ReceivedClear(d: string)
    requires |d| < BUFFER_SIZE && NulFree(d)
    ensures Terminated(Receive(CLEAR, d), 0) && At(Receive(CLEAR, d), 0) == d
  {
    var b := Receive(CLEAR, d);
    EndIs(b, 0, |d|);
    assert b[0..|d|] == d;
  }

  /** Two cuts before `n` leave what stood behind it. */
  lemma CutBefore(d: string, i: nat, j: nat, n: nat)
    requires i < n && j < n <= |d| < BUFFER_SIZE && NulFree(d)
    ensures Stale(Receive(CLEAR, d)[i := '\0'][j := '\0'], n) == d[n..]
  {
    var left := Receive(CLEAR, d)[i := '\0'][j := '\0'];
    assert forall k | n <= k < |d| :: left[k] == d[k];
    EndIs(left, n, |d|);
    assert left[n..|d|] == d[n..];
  }

  /** What a `push` in a clear buffer leaves behind byte `n`. */
  lemma LeavesBehind(s: State, d: string, pid: string, cmd: string, tail: string, n: nat)
    requires d == pid + " " + (cmd + " " + tail) && |d| < BUFFER_SIZE && NulFree(d)
    requires pid != "" && SpaceFree(pid) && PidOf(pid).Some?
    requires cmd != "" && SpaceFree(cmd) && Dispatch(cmd) == Some(Push)
    requires |pid| + |cmd| + 1 < n <= |d|
    ensures Stale(BufferLeft(s, CLEAR, d), n) == d[n..]
  {
    hide PidOf, Dispatch, Tokenised, At, Terminated, NulFree, Stale, BufferAfter, Receive, SpaceFree;
    ReceivedClear(d);
    PushCuts(s, Receive(CLEAR, d), pid, cmd, tail);
    CutBefore(d, |pid|, |pid| + 1 + |cmd|, n);
  }

  /** The line `1 push a/tmp`. */
  const PUSH: string := "1 push a/tmp "

  lemma PushText()
    ensures NulFree(PUSH) && NulFree("a/tmp ") && SpaceFree("1") && SpaceFree("push") && SpaceFree("a/tmp")
    ensures PUSH == "1" + " " + ("push" + " " + "a/tmp ") == "1" + " " + "push" + " " + "a/tmp "
    ensures PUSH[8..] == "/tmp " && "a/tmp" + " " == "a/tmp " == "a/tmp " + ""
  {
  }

  lemma DispatchPush()
    ensures Dispatch("push") == Some(Push)
  {
    DispatchIff("push", 6);
  }

  /** It leaves `/tmp ` behind the place of a line as short as `1 add t`. */
  lemma PushLeaves(s: State)
    ensures Stale(BufferLeft(s, CLEAR, PUSH), 8) == "/tmp "
  {
    PushText();
    PidOne();
    DispatchPush();
    hide PidOf, Dispatch, NulFree, SpaceFree, Stale, BufferLeft;
    LeavesBehind(s, PUSH, "1", "push", "a/tmp ", 8);
  }

  lemma PlainLine(l: Line)
    requires l.pid != "" && SpaceFree(l.pid) && PidOf(l.pid).Some? && l.cmd != "" && SpaceFree(l.cmd)
    requires NulFree(Datagram(l)) && |Datagram(l)| < BUFFER_SIZE
    ensures Sendable(l)
  {
  }

  lemma PushIsComplete(l: Line)
    requires Sendable(l) && Dispatch(l.cmd) == Some(Push) && NulFree(Encode(l.args))
    ensures Complete(l)
  {
    hide Sendable, Dispatch, Encode;
    assert Encode(l.args) + "" == Encode(l.args);
  }

  lemma PushDatagram()
    ensures Datagram(Line("1", "push", ["a/tmp"])) == PUSH && Encode(["a/tmp"]) == "a/tmp "
    ensures NulFree(PUSH) && NulFree("a/tmp ") && SpaceFree("1") && SpaceFree("push") && |PUSH| < BUFFER_SIZE
    ensures "1" != "" && "push" != ""
  {
    PushText();
    assert |PUSH| < BUFFER_SIZE;
    hide *;
    DatagramParts(Line("1", "push", ["a/tmp"]));
    OneWord("a/tmp");
  }

  lemma PushIsSent()
    ensures Complete(Line("1", "push", ["a/tmp"])) && Datagram(Line("1", "push", ["a/tmp"])) == PUSH
    ensures PidOf("1") == Some(1) && Dispatch("push") == Some(Push)
  {
    hide PidOf, Dispatch, NulFree, SpaceFree, Encode, Datagram, Complete, Sendable;
    PushDatagram();
    PidOne();
    DispatchPush();
    PlainLine(Line("1", "push", ["a/tmp"]));
    PushIsComplete(Line("1", "push", ["a/tmp"]));
  }

  lemma PushArrives(env: Env, s: State)
    requires DistinctPids(s.shells) && StackOf(s.shells, 1).Some?
    ensures var t := Arrives(env, s, CLEAR, PUSH);
      t.end == NoMore && StackOf(t.state.shells, 1).Some?
  {
    var l := Line("1", "push", ["a/tmp"]);
    PushIsSent();
    hide PidOf, Dispatch, Step, Datagram, Sendable, Arrives, OnStack, StackOf;
    ReceiveKeepsNul(CLEAR, PUSH);
    ArrivesIsStep(env, s, CLEAR, l);
    StepIsLocal(env, s, RequestOf(l, ""), 1);
  }

  lemma AddLineText()
    ensures NulFree("1 add t ") && SpaceFree("1") && SpaceFree("add") && SpaceFree("t")
    ensures "1" + " " + "add" + " " + "t " == "1 add t " && "t" + " " == "t "
  {
  }

  lemma AddIsSent()
    ensures Sendable(Line("1", "add", ["t"])) && Datagram(Line("1", "add", ["t"])) == "1 add t "
  {
    AddLineText();
    PidOne();
    hide PidOf, NulFree, SpaceFree, Encode, Datagram, Sendable;
    DatagramParts(Line("1", "add", ["t"]));
    OneWord("t");
    PlainLine(Line("1", "add", ["t"]));
  }

  lemma AddAlwaysFits(s: State, r: Request)
    requires Dispatch(r.cmd) == Some(Add) && Defined(r)
    ensures CanAct(s, r) && FitsReply(s, r)
  {
  }

  lemma StepIsAct(env: Env, s: State, m: Message)
    ensures CanAct(s, m) && Act(env, s, m) == Step(env, s, m)
  {
  }

  lemma AddArrives(env: Env, s: State, buf: seq<char>)
    requires env.valid("/tmp") && StackOf(s.shells, 1).Some?
    requires IsBuffer(buf) && Stale(buf, 8) == "/tmp "
    ensures var t := Arrives(env, s, buf, "1 add t ");
      t.end == NoMore && TextOf(t.reply) == Some("OK\n") && Lookup(t.state.tags, "t") == Some("/tmp")
  {
    AddIsSent();
    AddT();
    StaleWordIsAdded(env, s);
    hide PidOf, Dispatch, Step, Lookup, Words, RequestOf, Datagram, Sendable, IsBuffer, Stale, StackOf;
    hide FitsReply, CanAct, Act;
    var l := Line("1", "add", ["t"]);
    ParseInStaleBuffer(buf, l);
    ReceiveKeepsNul(buf, Datagram(l));
    AddAlwaysFits(s, RequestOf(l, "/tmp "));
    StepIsAct(env, s, RequestOf(l, "/tmp "));
  }

  lemma ServeTwo(env: Env, s: State, buf: seq<char>, a: string, b: string)
    requires Arrives(env, s, buf, a).end == NoMore
    requires Arrives(env, Arrives(env, s, buf, a).state, BufferLeft(s, buf, a), b).end == NoMore
    ensures var t := Arrives(env, s, buf, a); var u := Arrives(env, t.state, BufferLeft(s, buf, a), b);
      Serve(env, s, buf, [a, b]) == Served(u.state, [t.reply, u.reply], NoMore)
  {
    hide Arrives, BufferLeft;
    assert [a, b][1..] == [b] && [b][1..] == [];
    ServeNone(env, Arrives(env, Arrives(env, s, buf, a).state, BufferLeft(s, buf, a), b).state,
      BufferLeft(Arrives(env, s, buf, a).state, BufferLeft(s, buf, a), b));
  }

  /** For instance, these two datagrams add the tag `t` with the path `/tmp`. */
  lemma StaleTmp(env: Env, s: State)
    requires env.valid("/tmp") && DistinctPids(s.shells) && StackOf(s.shells, 1).Some?
    ensures var r := Serve(env, s, CLEAR, [PUSH, "1 add t "]);
      && r.end == NoMore && |r.replies| == 2
      && TextOf(r.replies[1]) == Some("OK\n") && Lookup(r.state.tags, "t") == Some("/tmp")
  {
    var push, add := Line("1", "push", ["a/tmp"]), Line("1", "add", ["t"]);
    var left := BufferLeft(s, CLEAR, PUSH);
    PushLeaves(s);
    LeftIsBuffer(s, CLEAR, PUSH);
    PushArrives(env, s);
    var s1 := Arrives(env, s, CLEAR, PUSH).state;
    AddArrives(env, s1, left);
    hide Arrives, BufferLeft;
    ServeTwo(env, s, CLEAR, PUSH, "1 add t ");
  }
}
