/**
  What one message comes to, for every string: whether the loop goes on behind it, and
  when the program's behaviour is undefined.  The words of a message are those that its
  spaces separate.
 */
module Turns {
  import opened CString
  import opened Decimal
  import opened TagFile
  import opened Daemon
  import opened ReceiveBuffer
  import opened CommandTable
  import opened Isolation
  import opened TagMap
  import opened Texts
  import opened Wire
  import opened Serving

  // Messages without a command

  /** No word, or a pid alone. */
  predicate WithoutCommand(text: string) {
    var ws := Words(text);
    ws == [] || (|ws| == 1 && PidOf(ws[0]).Some?)
  }

  predicate WithoutPid(text: string) {
    var ws := Words(text);
    ws != [] && PidOf(ws[0]).None?
  }

  lemma FewWords(text: string)
    ensures ParseMessage(text) == Ignored <==> WithoutCommand(text)
    ensures ParseMessage(text) == OutOfRange <==> WithoutPid(text)
  {
    hide PidOf, Skip, UpTo, After;
    var t := Skip(text, {' '});
    if t != "" {
      var rest := After(t, {' '});
      assert Words(text) == [UpTo(t, {' '})] + Words(rest);
      assert Words(rest) == [] <==> Skip(rest, {' '}) == "";
    }
  }

  /**
    The daemon survives every message: one without a command changes nothing and is not
    answered, and the loop goes on; it is left exactly for a first word beyond 64 bits.
   */
  lemma TurnWithoutCommand(env: Env, s: State, text: string)
    ensures WithoutCommand(text) ==> Hear(env, s, text) == Turn(s, None, NoMore)
    ensures Hear(env, s, text).end == PidOutOfRange <==> WithoutPid(text)
    ensures WithoutPid(text) ==> Hear(env, s, text) == Turn(s, None, PidOutOfRange)
  {
    hide ParseMessage, WithoutCommand, WithoutPid, CanAct, FitsReply, Act;
    FewWords(text);
  }

  // Messages with a command

  predicate Blank(s: string) {
    forall k | 0 <= k < |s| :: s[k] == ' '
  }

  /** Two words with spaces around them, and what follows the second. */
  predicate Framed(text: string, lead: string, pid: string, gap: string, cmd: string, tail: string) {
    && text == lead + (pid + (gap + (cmd + tail)))
    && Blank(lead) && Blank(gap) && gap != ""
    && pid != "" && SpaceFree(pid) && cmd != "" && SpaceFree(cmd)
    && (tail != "" ==> tail[0] == ' ')
  }

  /** A word behind spaces, up to a space or the end. */
  lemma OneToken(lead: string, w: string, tail: string)
    requires Blank(lead) && w != "" && SpaceFree(w) && (tail != "" ==> tail[0] == ' ')
    ensures var t := Skip(lead + (w + tail), {' '});
      t == w + tail && UpTo(t, {' '}) == w && After(t, {' '}) == if tail == "" then "" else tail[1..]
  {
    var s, t := lead + (w + tail), w + tail;
    assert forall k | 0 <= k < |lead| :: s[k] == lead[k];
    assert s[|lead|] == w[0];
    SpanIs(s, {' '}, |lead|);
    assert forall k | 0 <= k < |w| :: t[k] == w[k];
    CSpanIs(t, {' '}, |w|);
  }

  /** What follows the command, behind its space. */
  function ArgsBehind(tail: string): Option<string> {
    if |tail| <= 1 then None else Some(tail[1..])
  }

  lemma ParseOfFramed(text: string, lead: string, pid: string, gap: string, cmd: string, tail: string)
    requires Framed(text, lead, pid, gap, cmd, tail) && PidOf(pid).Some?
    ensures ParseMessage(text) == Parsed(Request(PidOf(pid).value, cmd, ArgsBehind(tail)))
  {
    hide PidOf, Skip, UpTo, After;
    OneToken(lead, pid, gap + (cmd + tail));
    assert (gap + (cmd + tail))[1..] == gap[1..] + (cmd + tail);
    OneToken(gap[1..], cmd, tail);
  }

  lemma SpansAre(s: string)
    ensures var n := Span(s, {' '}); var t := s[n..]; var m := CSpan(t, {' '});
      && Blank(s[..n]) && (n < |s| ==> s[n] != ' ') && SpaceFree(t[..m]) && (m < |t| ==> t[m] == ' ')
      && (t != "" && t[0] != ' ' ==> m > 0)
  {
    var n := Span(s, {' '});
    forall k | 0 <= k < n ensures s[..n][k] == ' ' {
      assert s[k] in {' '};
    }
  }

  lemma WordsUnfold(s: string)
    requires Words(s) != []
    ensures var n := Span(s, {' '}); var t := s[n..]; var m := CSpan(t, {' '});
      t != "" && Words(s) == [t[..m]] + Words(if m == |t| then "" else t[m + 1..])
  {
    hide Span, CSpan;
  }

  lemma WordsFirst(s: string)
    requires Words(s) != []
    ensures var n := Span(s, {' '}); var t := s[n..]; var m := CSpan(t, {' '});
      && Blank(s[..n]) && m > 0 && SpaceFree(t[..m]) && (m < |t| ==> t[m] == ' ')
      && Words(s) == [t[..m]] + Words(if m == |t| then "" else t[m + 1..])
  {
    var n := Span(s, {' '});
    WordsUnfold(s);
    SpansAre(s);
    hide Words, Span, CSpan;
    if s[n..] != "" { assert s[n..][0] == s[n]; }
  }

  lemma TokenParts(s: string) returns (lead: string, w: string, tail: string)
    requires Words(s) != []
    ensures s == lead + (w + tail) && Blank(lead) && (tail != "" ==> tail[0] == ' ')
    ensures w != "" && SpaceFree(w) && Words(s) == [w] + Words(if tail == "" then "" else tail[1..])
  {
    hide Words, Span, CSpan, SpaceFree, Blank;
    WordsFirst(s);
    var n := Span(s, {' '});
    var t := s[n..];
    var m := CSpan(t, {' '});
    lead, w, tail := s[..n], t[..m], t[m..];
    Parts(s, n);
    Parts(t, m);
    if m < |t| { assert tail[1..] == t[m + 1..]; }
  }

  /** Every string with two words is of that form. */
  lemma FramedParts(text: string) returns (lead: string, pid: string, gap: string, cmd: string, tail: string)
    requires |Words(text)| > 1
    ensures Framed(text, lead, pid, gap, cmd, tail) && pid == Words(text)[0] && cmd == Words(text)[1]
  {
    hide Words, SpaceFree;
    var rest;
    lead, pid, rest := TokenParts(text);
    assert rest != "" by {
      if rest == "" { WordsSingle(""); }
    }
    var more;
    more, cmd, tail := TokenParts(rest[1..]);
    gap := " " + more;
    assert rest == gap + (cmd + tail);
  }

  // What parsing cuts

  lemma TokenSpans(lead: string, w: string, tail: string)
    requires Blank(lead) && w != "" && SpaceFree(w) && (tail != "" ==> tail[0] == ' ')
    ensures var s := lead + (w + tail);
      s[|lead|..] == w + tail && Span(s, {' '}) == |lead| && CSpan(w + tail, {' '}) == |w|
  {
    var s, t := lead + (w + tail), w + tail;
    assert forall k | 0 <= k < |lead| :: s[k] == lead[k];
    assert s[|lead|] == w[0];
    SpanIs(s, {' '}, |lead|);
    assert forall k | 0 <= k < |w| :: t[k] == w[k];
    CSpanIs(t, {' '}, |w|);
  }

  lemma NulBehind(b: seq<char>, start: nat, k: nat)
    requires Terminated(b, start) && k <= |At(b, start)|
    ensures start + k < |b| && (b[start + k] == '\0' <==> k == |At(b, start)|)
  {
  }

  lemma DropDrop(s: string, n: nat, m: nat)
    requires n + m <= |s|
    ensures s[n..][m..] == s[n + m..]
  {
  }

  /** A word with something behind it is cut off there. */
  lemma TokenInside(b: seq<char>, start: nat, n: nat, m: nat)
    requires Terminated(b, start) && n + m < |At(b, start)|
    requires Span(At(b, start), {' '}) == n && CSpan(At(b, start)[n..], {' '}) == m
    ensures start + n + m < |b|
    ensures Strtok(b, start, {' '}) == Token(b[start + n + m := '\0'], start + n, start + n + m + 1)
    ensures At(b[start + n + m := '\0'], start + n) == At(b, start)[n..][..m]
    ensures At(b[start + n + m := '\0'], start + n + m + 1) == At(b, start)[n + m + 1..]
  {
    hide Strtok, Span, CSpan, At, End;
    NulBehind(b, start, n + m);
    StrtokSpans(b, start, {' '});
    CutSplits(b, start, n, m);
    DropDrop(At(b, start), n, m + 1);
  }

  /** One at the end is left as it is. */
  lemma TokenLast(b: seq<char>, start: nat, n: nat, m: nat)
    requires Terminated(b, start) && n < |At(b, start)| == n + m
    requires Span(At(b, start), {' '}) == n && CSpan(At(b, start)[n..], {' '}) == m
    ensures start + n + m < |b| && b[start + n + m] == '\0'
    ensures Strtok(b, start, {' '}) == Token(b, start + n, start + n + m)
    ensures At(b, start + n) == At(b, start)[n..][..m] && At(b, start + n + m) == ""
  {
    hide Strtok, Span, CSpan, At, End;
    NulBehind(b, start, n + m);
    assert b[start + n + m := '\0'] == b;
    StrtokSpans(b, start, {' '});
    CutSplits(b, start, n, m);
  }

  lemma FramedRest(text: string, lead: string, pid: string, gap: string, cmd: string, tail: string)
    requires Framed(text, lead, pid, gap, cmd, tail)
    ensures var rest := gap + (cmd + tail);
      && text == lead + (pid + rest) && rest != "" && rest[0] == ' ' && rest[1..] == gap[1..] + (cmd + tail)
      && Blank(lead) && Blank(gap[1..]) && pid != "" && SpaceFree(pid) && cmd != "" && SpaceFree(cmd)
      && (tail != "" ==> tail[0] == ' ')
  {
    hide SpaceFree;
  }

  /** Where the words of a message with a command stand. */
  lemma FramedSpans(s: string, lead: string, pid: string, gap: string, cmd: string, tail: string)
    requires Framed(s, lead, pid, gap, cmd, tail)
    ensures |s| == |lead| + |pid| + |gap| + |cmd| + |tail| && |gap| > 0 && |cmd| > 0
    ensures Span(s, {' '}) == |lead| && CSpan(s[|lead|..], {' '}) == |pid| && s[|lead|..][..|pid|] == pid
    ensures var more := s[|lead| + |pid| + 1..];
      Span(more, {' '}) == |gap| - 1 && CSpan(more[|gap| - 1..], {' '}) == |cmd|
  {
    FramedRest(s, lead, pid, gap, cmd, tail);
    var rest := gap + (cmd + tail);
    hide Span, CSpan, Blank, SpaceFree, Framed;
    TokenSpans(lead, pid, rest);
    TokenSpans(gap[1..], cmd, tail);
    assert s[|lead| + |pid| + 1..] == rest[1..];
  }

  lemma RestIsUncut(b: seq<char>, start: nat)
    requires Terminated(b, start)
    ensures Strtok(b, start, {}).buf == b
  {
    StrtokCuts(b, start, {});
  }

  lemma SkipsAll(s: string)
    requires Blank(s)
    ensures Skip(s, {' '}) == ""
  {
    SpanIs(s, {' '}, |s|);
  }

  /** A message without a word is left as it is. */
  lemma BlankIsLeft(s: State, b: seq<char>)
    requires Terminated(b, 0) && Blank(At(b, 0))
    ensures BufferAfter(s, b) == b
  {
    hide Strtok, At, PidOf, Skip, UpTo, After;
    SkipsAll(At(b, 0));
    StrtokSplits(b, 0, {' '});
  }

  lemma AloneSpans(s: string, lead: string, pid: string, tail: string)
    requires s == lead + (pid + tail) && Blank(lead) && Blank(tail) && pid != "" && SpaceFree(pid)
    ensures |s| == |lead| + |pid| + |tail|
    ensures Span(s, {' '}) == |lead| && CSpan(s[|lead|..], {' '}) == |pid| && s[|lead|..][..|pid|] == pid
    ensures tail != "" ==> Skip(s[|lead| + |pid| + 1..], {' '}) == ""
  {
    TokenSpans(lead, pid, tail);
    if tail != "" {
      assert s[|lead| + |pid| + 1..] == tail[1..];
      SkipsAll(tail[1..]);
    }
  }

  lemma NoMoreTokens(s: State, b: seq<char>, p: Token)
    requires Terminated(b, 0) && p == Strtok(b, 0, {' '}) && p.tok >= 0 && PidOf(At(p.buf, p.tok)).Some?
    requires Skip(At(p.buf, p.save), {' '}) == ""
    ensures BufferAfter(s, b) == p.buf
  {
    hide Strtok, At, PidOf, Skip, UpTo, After;
    StrtokSplits(p.buf, p.save, {' '});
  }

  lemma PidAtEnd(s: State, b: seq<char>, n: nat, m: nat)
    requires Terminated(b, 0) && n < |At(b, 0)| == n + m
    requires Span(At(b, 0), {' '}) == n && CSpan(At(b, 0)[n..], {' '}) == m && PidOf(At(b, 0)[n..][..m]).Some?
    ensures n + m < |b| && BufferAfter(s, b) == b
  {
    SkipsAll("");
    hide Strtok, At, End, Span, CSpan, PidOf, BufferAfter, Skip;
    TokenLast(b, 0, n, m);
    NoMoreTokens(s, b, Token(b, n, n + m));
  }

  lemma PidInside(s: State, b: seq<char>, n: nat, m: nat)
    requires Terminated(b, 0) && n + m < |At(b, 0)|
    requires Span(At(b, 0), {' '}) == n && CSpan(At(b, 0)[n..], {' '}) == m && PidOf(At(b, 0)[n..][..m]).Some?
    requires Skip(At(b, 0)[n + m + 1..], {' '}) == ""
    ensures n + m < |b| && BufferAfter(s, b) == b[n + m := '\0']
  {
    hide Strtok, At, End, Span, CSpan, PidOf, BufferAfter, Skip;
    TokenInside(b, 0, n, m);
    NoMoreTokens(s, b, Token(b[n + m := '\0'], n, n + m + 1));
  }

  /** Of a message with a pid alone, at most the byte behind it. */
  lemma AloneIsCut(s: State, b: seq<char>, lead: string, pid: string, tail: string)
    requires Terminated(b, 0) && At(b, 0) == lead + (pid + tail) && Blank(lead) && Blank(tail)
    requires pid != "" && SpaceFree(pid) && PidOf(pid).Some?
    ensures |lead| + |pid| < |b| && BufferAfter(s, b) == if tail == "" then b else b[|lead| + |pid| := '\0']
  {
    hide Strtok, At, End, Span, CSpan, Blank, SpaceFree, PidOf, BufferAfter, Skip;
    AloneSpans(At(b, 0), lead, pid, tail);
    if tail == "" {
      PidAtEnd(s, b, |lead|, |pid|);
    } else {
      PidInside(s, b, |lead|, |pid|);
    }
  }

  lemma TokenisedThrice(b: seq<char>, p: Token, c: Token)
    requires Terminated(b, 0) && p == Strtok(b, 0, {' '}) && p.tok >= 0 && PidOf(At(p.buf, p.tok)).Some?
    requires c == Strtok(p.buf, p.save, {' '}) && c.tok >= 0
    ensures Tokenised(b).buf == c.buf
  {
    hide Strtok, At, PidOf;
    RestIsUncut(c.buf, c.save);
  }

  /** The first word stands in `n..n + m`, and the second `k` bytes behind the next one, in `l` bytes. */
  lemma TwoCuts(b: seq<char>, n: nat, m: nat, k: nat, l: nat)
    requires Terminated(b, 0) && n + m + 1 + k + l <= |At(b, 0)| && l > 0
    requires Span(At(b, 0), {' '}) == n && CSpan(At(b, 0)[n..], {' '}) == m && PidOf(At(b, 0)[n..][..m]).Some?
    requires var more := At(b, 0)[n + m + 1..]; Span(more, {' '}) == k && CSpan(more[k..], {' '}) == l
    ensures n + m + 1 + k + l < |b|
    ensures var cut := b[n + m := '\0'];
      Tokenised(b).buf == if n + m + 1 + k + l == |At(b, 0)| then cut else cut[n + m + 1 + k + l := '\0']
  {
    hide Strtok, At, End, Span, CSpan, PidOf, Tokenised;
    TokenInside(b, 0, n, m);
    var cut, start, end := b[n + m := '\0'], n + m + 1, n + m + 1 + k + l;
    var p := Token(cut, n, start);
    if end == |At(b, 0)| {
      TokenLast(cut, start, k, l);
      TokenisedThrice(b, p, Token(cut, start + k, end));
    } else {
      TokenInside(cut, start, k, l);
      TokenisedThrice(b, p, Token(cut[end := '\0'], start + k, end + 1));
    }
  }

  /** Of a message with a command, exactly the byte behind the pid and that behind the command. */
  lemma CommandIsCut(b: seq<char>, lead: string, pid: string, gap: string, cmd: string, tail: string)
    requires Terminated(b, 0) && Framed(At(b, 0), lead, pid, gap, cmd, tail) && PidOf(pid).Some?
    ensures var i := |lead| + |pid|; var j := i + |gap| + |cmd|;
      j < |b| && Tokenised(b).buf == if tail == "" then b[i := '\0'] else b[i := '\0'][j := '\0']
  {
    hide Strtok, At, End, Span, CSpan, Blank, SpaceFree, PidOf, Framed, Tokenised;
    FramedSpans(At(b, 0), lead, pid, gap, cmd, tail);
    TwoCuts(b, |lead|, |pid|, |gap| - 1, |cmd|);
  }

  // What overruns a reply buffer

  lemma {:induction false} ConcatSnoc(ss: seq<string>, s: string)
    ensures |Concat(ss + [s])| == |Concat(ss)| + |s|
  {
    if ss == [] {
      assert [] + [s] == [s] && [s][1..] == [];
    } else {
      assert (ss + [s])[1..] == ss[1..] + [s];
      ConcatSnoc(ss[1..], s);
    }
  }

  /** All lines of `show` but the last. */
  function LinesBefore(tags: seq<Tag>): seq<string> {
    if tags == [] then [] else ShownLines(tags[..|tags| - 1])
  }

  lemma ShowFitsIff(tags: seq<Tag>)
    ensures ShowFits(tags) <==> |Concat(LinesBefore(tags))| <= 2048
  {
    if tags != [] {
      var n := |tags| - 1;
      assert ShownLines(tags) == LinesBefore(tags) + [ShowLine(tags[n])];
      hide ShownLines, LinesBefore, ShowLine, Concat, ShowText;
      ShowTextIs(tags);
      ConcatSnoc(LinesBefore(tags), ShowLine(tags[n]));
    }
  }

  /**
    The reply to a registered shell is too long for the buffer that it is formatted in:
    100 bytes for a path, 1024 for the actions, 256 for the names, and for the tags the
    2048 bytes behind which the last line must not start.
   */
  predicate Overruns(s: State, pid: int, cmd: string, args: Option<string>)
    requires StackOf(s.shells, pid).Some?
  {
    var actions := StackOf(s.shells, pid).value;
    || ("pop" <= cmd && actions != [] && |actions[0] + "\n"| >= 100)
    || ("actions" <= cmd && |Concat(NumberedLines(actions, 1))| >= 1024)
    || ("list" <= cmd && |Concat(NamesSpaced(s.tags))| >= 256)
    || ("show" <= cmd && |Concat(LinesBefore(s.tags))| > 2048)
    || ("get" <= cmd && args.Some? && Words(args.value) != []
        && var path := Lookup(s.tags, Trim(Words(args.value)[0])); path.Some? && |path.value + "\n"| >= 100)
  }

  /** The command needs arguments, and there are none. */
  predicate LacksArgs(cmd: string, args: Option<string>) {
    args.None? && ("add" <= cmd || "delete" <= cmd || "get" <= cmd)
  }

  lemma LacksArgsIff(s: State, r: Request)
    ensures CanAct(s, r) <==> StackOf(s.shells, r.pid).None? || !LacksArgs(r.cmd, r.args)
  {
    hide Dispatch;
    DispatchSpecification(r.cmd);
  }

  lemma PopTextLength(actions: seq<string>)
    ensures |PopAction(actions).text.value| >= 100 <==> actions != [] && |actions[0] + "\n"| >= 100
  {
  }

  lemma OverrunsIff(s: State, r: Request)
    requires CanAct(s, r)
    ensures FitsReply(s, r) <==> StackOf(s.shells, r.pid).None? || !Overruns(s, r.pid, r.cmd, r.args)
  {
    hide Dispatch, PopAction, ActionLines, SpacedNames, ShowFits, NumberedLines, NamesSpaced, LinesBefore;
    hide Concat, Words, Trim;
    DispatchSpecification(r.cmd);
    if StackOf(s.shells, r.pid).Some? {
      var actions := StackOf(s.shells, r.pid).value;
      PopTextLength(actions);
      ActionLinesAre(actions, 1);
      SpacedNamesAre(s.tags);
      ShowFitsIff(s.tags);
    }
  }

  lemma StackTextFits(valid: Validity, actions: seq<string>, c: Command, args: Option<string>)
    requires IsStackCommand(c)
    requires c == Pop ==> |PopAction(actions).text.value| < POP_SIZE
    requires c == Actions ==> |ActionLines(actions, 1)| < ACTIONS_SIZE
    ensures var text := OnStack(valid, actions, c, args).text; text.Some? ==> |text.value| < 1024
  {
    hide ActionLines, Trim, RemoveAt, PathIndex;
  }

  lemma TagTextFits(valid: Validity, tags: seq<Tag>, c: Command, args: Option<string>)
    requires IsTagCommand(c) && c != Show && (NeedsArgs(c) ==> args.Some?)
    requires c == List ==> |SpacedNames(tags)| < LIST_SIZE
    requires c == Get ==> var text := GetTag(tags, args.value).text; text.Some? ==> |text.value| < GET_SIZE
    ensures var text := OnTags(valid, tags, c, args).text; text.Some? ==> |text.value| < 1024
  {
    hide SpacedNames, Words, Trim, PutTag, RemoveAt, TagIndex;
  }

  /** Every reply but the text of `show` fits the 1024 bytes that the client reads, with a NUL. */
  lemma OnlyShowIsLong(env: Env, s: State, m: Message)
    requires FitsReply(s, m) && Step(env, s, m).reply.Some?
    ensures |Step(env, s, m).reply.value.text| >= 1024 ==> "show" <= m.cmd
  {
    DispatchSpecification(m.cmd);
    hide Dispatch, ActionLines, SpacedNames, Write, RemoveAt, PopAction, GetTag, OnStack, OnTags, DaemonAddress;
    var i, c := ShellIndex(s.shells, m.pid), Dispatch(m.cmd).value;
    if i < |s.shells| {
      if IsStackCommand(c) {
        StackTextFits(env.valid, s.shells[i].actions, c, m.args);
      } else if IsTagCommand(c) && c != Show {
        TagTextFits(env.valid, s.tags, c, m.args);
      }
    }
  }

  // Messages with a command, on the daemon

  lemma NulFreeArgs(text: string, lead: string, pid: string, gap: string, cmd: string, tail: string)
    requires Framed(text, lead, pid, gap, cmd, tail) && NulFree(text)
    ensures ArgsBehind(tail).Some? ==> NulFree(ArgsBehind(tail).value)
  {
    var n := |lead| + |pid| + |gap| + |cmd|;
    assert forall k | 0 <= k < |tail| :: text[n + k] == tail[k];
  }

  /** An ignored message is not a step, for it may not be defined as one. */
  lemma StrangerIsIgnored(env: Env, s: State, r: Request)
    requires CanAct(s, r) && StackOf(s.shells, r.pid).None? && !("register" <= r.cmd)
    ensures Act(env, s, r) == Outcome(s, None)
  {
    hide Dispatch;
    DispatchSpecification(r.cmd);
  }

  lemma NowDefined(s: State, r: Request)
    requires CanAct(s, r) && (StackOf(s.shells, r.pid).Some? || "register" <= r.cmd)
    requires r.args.Some? ==> NulFree(r.args.value)
    ensures Defined(r)
  {
    hide Dispatch;
    DispatchSpecification(r.cmd);
  }

  /**
    A message with a command, for every string: where arguments are missing or the reply
    overruns its buffer, the program's behaviour is undefined; other messages of unknown
    shells are ignored unless they register; and anything else is a step.
   */
  lemma TurnOfCommand(
      env: Env, s: State, text: string, lead: string, pid: string, gap: string, cmd: string, tail: string)
    requires Framed(text, lead, pid, gap, cmd, tail) && PidOf(pid).Some? && NulFree(text)
    ensures var t, r := Hear(env, s, text), Request(PidOf(pid).value, cmd, ArgsBehind(tail));
      var known := StackOf(s.shells, r.pid).Some?;
      && (t.end == NullArgs <==> known && LacksArgs(cmd, r.args))
      && (t.end == Overrun <==> known && !LacksArgs(cmd, r.args) && Overruns(s, r.pid, cmd, r.args))
      && (t.end == NoMore || ((t.end == NullArgs || t.end == Overrun) && t.state == s && t.reply == None))
      && (!known && !("register" <= cmd) ==> t == Turn(s, None, NoMore))
      && (t.end == NoMore && (known || "register" <= cmd) ==>
            Defined(r) && Step(env, s, r) == Outcome(t.state, t.reply))
  {
    hide PidOf, Framed, ParseMessage, ArgsBehind, Overruns, LacksArgs, CanAct, FitsReply, Act, Defined, StackOf;
    ParseOfFramed(text, lead, pid, gap, cmd, tail);
    NulFreeArgs(text, lead, pid, gap, cmd, tail);
    var r := Request(PidOf(pid).value, cmd, ArgsBehind(tail));
    LacksArgsIff(s, r);
    if CanAct(s, r) {
      OverrunsIff(s, r);
      if StackOf(s.shells, r.pid).None? && !("register" <= cmd) {
        StrangerIsIgnored(env, s, r);
      } else {
        NowDefined(s, r);
      }
    }
  }

  // Datagrams

  /** The byte that `recv` leaves at `k`. */
  function ByteOf(buf: seq<char>, datagram: string, k: nat): char
    requires k < |buf|
  {
    if k < |datagram| then datagram[k] else buf[k]
  }

  /**
    A datagram in the 100-byte buffer: an empty one is not looked at; without a NUL in the
    buffer behind it the program's behaviour is undefined; otherwise the daemon hears the
    bytes before the first NUL, at most 100 of them from the datagram.
   */
  lemma ArrivesIs(env: Env, s: State, buf: seq<char>, datagram: string, e: nat)
    requires |buf| == 100 && e <= 100
    requires forall k | 0 <= k < e :: ByteOf(buf, datagram, k) != '\0'
    requires e < 100 ==> ByteOf(buf, datagram, e) == '\0'
    ensures Arrives(env, s, buf, datagram) ==
      if datagram == "" then Turn(s, None, NoMore)
      else if e == 100 then Turn(s, None, Unterminated)
      else Hear(env, s, seq(e, k requires 0 <= k < e => ByteOf(buf, datagram, k)))
  {
    hide Hear;
    var b := Receive(buf, datagram);
    assert forall k | 0 <= k < 100 :: b[k] == ByteOf(buf, datagram, k);
    EndIs(b, 0, e);
    assert b[0..e] == seq(e, k requires 0 <= k < e => ByteOf(buf, datagram, k));
  }

  // Runs

  /** Datagrams are served one after the other, up to one that ends the loop. */
  lemma {:induction false} ServeAppend(env: Env, s: State, buf: seq<char>, a: seq<string>, b: seq<string>)
    ensures var r := Serve(env, s, buf, a);
      Serve(env, s, buf, a + b) ==
        if r.end != NoMore then r
        else
          var q := Serve(env, r.state, BufferThen(env, s, buf, a), b);
          Served(q.state, r.replies + q.replies, q.end)
    decreases |a|
  {
    hide Arrives, BufferLeft;
    if a == [] {
      assert [] + b == b;
      assert forall q: Served :: [] + q.replies == q.replies;
    } else {
      assert (a + b)[0] == a[0] && (a + b)[1..] == a[1..] + b;
      var t := Arrives(env, s, buf, a[0]);
      if t.end == NoMore {
        ServeAppend(env, t.state, BufferLeft(s, buf, a[0]), a[1..], b);
      }
    }
  }

  lemma ServeOne(env: Env, s: State, buf: seq<char>, datagram: string)
    ensures var t := Arrives(env, s, buf, datagram);
      Serve(env, s, buf, [datagram]) == Served(t.state, [t.reply], t.end)
    ensures BufferThen(env, s, buf, [datagram]) == BufferLeft(s, buf, datagram)
  {
    hide Arrives, BufferLeft;
    assert [datagram][1..] == [];
  }

  /** The daemon hears this string when the datagram arrives. */
  predicate Reads(buf: seq<char>, datagram: string, text: string) {
    && |buf| == 100 && datagram != "" && |text| < 100
    && (forall k | 0 <= k < |text| :: ByteOf(buf, datagram, k) == text[k] != '\0')
    && ByteOf(buf, datagram, |text|) == '\0'
  }

  lemma HeardArrives(env: Env, s: State, buf: seq<char>, datagram: string, text: string)
    requires Reads(buf, datagram, text)
    ensures Arrives(env, s, buf, datagram) == Hear(env, s, text)
  {
    hide Hear;
    ArrivesIs(env, s, buf, datagram, |text|);
    assert seq(|text|, k requires 0 <= k < |text| => ByteOf(buf, datagram, k)) == text;
  }

  /** A message without a command leaves no trace but in the buffer: those behind it are served. */
  lemma ServeGoesOn(
      env: Env, s: State, buf: seq<char>, before: seq<string>, datagram: string, text: string, behind: seq<string>)
    requires Serve(env, s, buf, before).end == NoMore
    requires Reads(BufferThen(env, s, buf, before), datagram, text) && WithoutCommand(text)
    ensures var r, b := Serve(env, s, buf, before), BufferThen(env, s, buf, before);
      var q := Serve(env, r.state, BufferLeft(r.state, b, datagram), behind);
      Serve(env, s, buf, before + [datagram] + behind) == Served(q.state, r.replies + [None] + q.replies, q.end)
  {
    hide Serve, BufferThen, BufferLeft, Arrives, Hear, WithoutCommand, Reads;
    var r, b := Serve(env, s, buf, before), BufferThen(env, s, buf, before);
    HeardArrives(env, r.state, b, datagram, text);
    TurnWithoutCommand(env, r.state, text);
    ServeOne(env, r.state, b, datagram);
    assert before + [datagram] + behind == before + ([datagram] + behind);
    ServeAppend(env, s, buf, before, [datagram] + behind);
    ServeAppend(env, r.state, b, [datagram], behind);
  }

  /** Behind a pid beyond 64 bits nothing is served. */
  lemma ServeEnds(
      env: Env, s: State, buf: seq<char>, before: seq<string>, datagram: string, text: string, behind: seq<string>)
    requires Serve(env, s, buf, before).end == NoMore
    requires Reads(BufferThen(env, s, buf, before), datagram, text) && WithoutPid(text)
    ensures var r := Serve(env, s, buf, before);
      Serve(env, s, buf, before + [datagram] + behind) == Served(r.state, r.replies + [None], PidOutOfRange)
  {
    hide Serve, BufferThen, BufferLeft, Arrives, Hear, WithoutPid, Reads;
    var r, b := Serve(env, s, buf, before), BufferThen(env, s, buf, before);
    HeardArrives(env, r.state, b, datagram, text);
    TurnWithoutCommand(env, r.state, text);
    ServeOne(env, r.state, b, datagram);
    assert before + [datagram] + behind == before + ([datagram] + behind);
    ServeAppend(env, s, buf, before, [datagram] + behind);
    ServeAppend(env, r.state, b, [datagram], behind);
  }

  // For instance

  lemma RegisterText()
    ensures "1 register " == "" + ("1" + (" " + ("register" + " ")))
  {
    assert "register" + " " == "register ";
    assert " " + "register " == " register ";
    assert "1" + " register " == "1 register ";
  }

  lemma RegisterFramed()
    ensures Framed("1 register ", "", "1", " ", "register", " ")
  {
    RegisterText();
  }

  lemma RegisterNulFree()
    ensures NulFree("1 register ") && NulFree("1 ") && |"1 "| == 2 && |"1 register "| == 11
  {
  }

  lemma OneIsAPid()
    ensures WithoutCommand("1 ")
  {
    OneWord("1");
    assert "1" + " " == "1 ";
    hide Words, PidOf;
    PidOne();
  }

  lemma ReadsInClear(buf: seq<char>, text: string)
    requires |buf| == 100 && 0 < |text| < 100 && NulFree(text) && ClearFrom(buf, |text|)
    ensures Reads(buf, text, text)
  {
  }

  lemma LeavesClear(s: State, text: string, n: nat)
    requires |text| <= n
    ensures ClearFrom(BufferLeft(s, CLEAR, text), n)
  {
    hide BufferLeft;
    var b := Receive(CLEAR, text);
    assert forall k | n <= k < |b| :: b[k] == '\0';
  }

  lemma IsClear(n: nat)
    ensures ClearFrom(CLEAR, n) && |CLEAR| == 100
  {
  }

  /** A message without a command, and a longer one behind it. */
  lemma AloneThen(env: Env, s: State, alone: string, next: string)
    requires 0 < |alone| < |next| < 100 && NulFree(alone) && NulFree(next) && WithoutCommand(alone)
    ensures var t := Hear(env, s, next);
      Serve(env, s, CLEAR, [alone, next]) == Served(t.state, [None, t.reply], t.end)
  {
    hide WithoutCommand, NulFree, BufferLeft, Hear, Serve, Arrives, Reads, ClearFrom;
    var left := BufferLeft(s, CLEAR, alone);
    IsClear(|alone|);
    LeavesClear(s, alone, |next|);
    ReadsInClear(CLEAR, alone);
    ServeNone(env, s, CLEAR);
    assert BufferThen(env, s, CLEAR, []) == CLEAR;
    ServeGoesOn(env, s, CLEAR, [], alone, alone, [next]);
    assert [] + [alone] + [next] == [alone, next];
    ServeOne(env, s, left, next);
    ReadsInClear(left, next);
    HeardArrives(env, s, left, next, next);
  }

  /** `register` from an unknown pid. */
  lemma Registers(env: Env, s: State)
    requires StackOf(s.shells, 1).None?
    ensures var t := Hear(env, s, "1 register ");
      && t.end == NoMore && StackOf(t.state.shells, 1) == Some([])
      && t.reply == Some(Reply(DaemonAddress(env.cacheDir, 1), "OK\n"))
  {
    RegisterFramed();
    RegisterNulFree();
    PidOne();
    assert "register" <= "register";
    DispatchSpecification("register");
    hide Hear, PidOf, Framed, Dispatch, DaemonAddress, NulFree;
    TurnOfCommand(env, s, "1 register ", "", "1", " ", "register", " ");
    StackAfterAppend(s.shells, Shell(1, DaemonAddress(env.cacheDir, 1), []), 1);
  }

  /** A client called with its pid alone, and then a shell that registers. */
  lemma PidAlone(env: Env, content: string)
    ensures var r := Serve(env, Start(env, content), CLEAR, ["1 ", "1 register "]);
      && r.end == NoMore && StackOf(r.state.shells, 1) == Some([])
      && r.replies == [None, Some(Reply(DaemonAddress(env.cacheDir, 1), "OK\n"))]
  {
    assert StackOf(Start(env, content).shells, 1).None?;
    hide *;
    RegisterNulFree();
    OneIsAPid();
    AloneThen(env, Start(env, content), "1 ", "1 register ");
    Registers(env, Start(env, content));
  }
}
