/**
  The command handlers, on the heap, each against its step.
 */
module Commands {
  import opened CString
  import opened Decimal
  import opened TagFile
  import opened Daemon
  import opened HeapList
  import opened NavDaemon
  import opened ReceiveBuffer

  method CmdRegister(st: NavState, pid: int) returns (reply: Option<Reply>)
    requires st.Valid()
    modifies st.Repr, st.heap
    ensures st.Valid() && fresh(st.Repr - old(st.Repr))
    ensures Outcome(st.View(), reply) == Handle(st.env, old(st.View()), Register, pid, None)
  {
    hide NavState.Valid, NavState.View;
    ghost var i;
    var s;
    s, i := st.FindShell(pid);
    if s != null {
      return Some(Reply(s.addr, "OK\n"));
    }
    s := st.AppendShell(pid);
    return Some(Reply(s.addr, "OK\n"));
  }

  method CmdUnregister(st: NavState, pid: int) returns (reply: Option<Reply>)
    requires st.Valid()
    modifies st.Repr, st.heap
    ensures st.Valid() && st.Repr == old(st.Repr)
    ensures Outcome(st.View(), reply) == Handle(st.env, old(st.View()), Unregister, pid, None)
  {
    hide NavState.Valid, NavState.View;
    ghost var i;
    var s;
    s, i := st.FindShell(pid);
    if s == null {
      return None;
    }
    var addr := s.addr;
    var rc := st.DeleteShell(pid, i, s);
    if rc != 0 {
      return None;
    }
    return Some(Reply(addr, "OK\n"));
  }

  /** A text formatted in a buffer of that size, unless it would be written behind it. */
  method Formatted(text: string, size: nat) returns (r: string, overrun: bool)
    ensures overrun <==> |text| >= size
    ensures !overrun ==> r == text
  {
    if |text| >= size {
      return "", true;
    }
    var buf := new char[size](_ => '\0');
    var end := Sprintf(buf, 0, text);
    return buf[..end], false;
  }

  // The action stack

  method CmdPush(st: NavState, pid: int, buf: array<char>, args: int) returns (reply: Option<Reply>)
    requires st.Valid() && IsPointer(buf[..], args)
    modifies st.Repr, st.heap
    ensures st.Valid() && fresh(st.Repr - old(st.Repr))
    ensures Outcome(st.View(), reply) == Handle(st.env, old(st.View()), Push, pid, ArgString(old(buf[..]), args))
  {
    hide NavState.Valid, NavState.View, Handle;
    ghost var i;
    var s;
    s, i := st.FindShell(pid);
    if s == null {
      NoShellStep(st.env, st.View(), Push, pid, ArgString(buf[..], args));
      return None;
    }
    StackStep(st.env, st.View(), Push, pid, ArgString(buf[..], args), i);
    if args < 0 {
      return None;
    }
    var action := CopyTrimmed(buf, args);
    if !st.env.valid(action) {
      return Some(Reply(s.addr, "BAD\n"));
    }
    st.StackOfShell(i, s);
    if s.actions.head != null && s.actions.head.data.action.path == action {
      return Some(Reply(s.addr, "OK\n"));
    }
    st.PushNode(s, action, i);
    return Some(Reply(s.addr, "OK\n"));
  }

  method CmdPop(st: NavState, pid: int) returns (reply: Option<Reply>, overrun: bool)
    requires st.Valid()
    modifies st.Repr, st.heap
    ensures st.Valid() && st.Repr == old(st.Repr)
    ensures overrun <==> !ReplyFits(old(st.View()), Pop, pid, None)
    ensures Outcome(st.View(), reply) ==
      if overrun then Outcome(old(st.View()), None) else Handle(st.env, old(st.View()), Pop, pid, None)
  {
    hide NavState.Valid, NavState.View, Handle;
    ghost var i;
    var s;
    s, i := st.FindShell(pid);
    if s == null {
      NoShellStep(st.env, st.View(), Pop, pid, None);
      return None, false;
    }
    StackStep(st.env, st.View(), Pop, pid, None, i);
    st.StackOfShell(i, s);
    var top := s.actions.head;
    if top == null {
      return Some(Reply(s.addr, "BAD\n")), false;
    }
    var text;
    text, overrun := Formatted(top.data.action.path + "\n", POP_SIZE);
    if overrun {
      return None, true;
    }
    st.DeleteAction(s, top.data.action.path, i);
    return Some(Reply(s.addr, text)), false;
  }

  /** Behind `k` actions the listing goes on with the next. */
  lemma ActionLinesFrom(actions: seq<string>, k: nat)
    requires k <= |actions|
    ensures ActionLines(actions[k..], k + 1) ==
      if k == |actions| then "" else ActionLine(k + 1, actions[k]) + ActionLines(actions[k + 1..], k + 2)
  {
    if k < |actions| { assert actions[k..][1..] == actions[k + 1..]; }
  }

  /** The loop of `cmd_actions` over the list. */
  method ActionsText(st: NavState, s: ShellCell, ghost i: nat) returns (text: string, overrun: bool)
    requires st.Valid() && st.IsAt(i, s) && i < |st.View().shells|
    ensures overrun <==> |ActionLines(st.View().shells[i].actions, 1)| >= ACTIONS_SIZE
    ensures !overrun ==> text == ActionLines(st.View().shells[i].actions, 1)
  {
    hide NavState.Valid, NavState.View, ActionLines, ActionLine;
    st.ActionHead(i, s);
    ghost var view := st.View();
    ghost var all := view.shells[i].actions;
    var buf := new char[ACTIONS_SIZE](_ => '\0');
    var n, offset := 1, 0;
    assert all[0..] == all && buf[..0] + ActionLines(all, 1) == ActionLines(all, 1);
    var node := s.actions.head;
    while node != null
      invariant 1 <= n <= |all| + 1 && fresh(buf) && buf !in st.Repr && 0 <= offset < buf.Length
      invariant st.Valid() && st.View() == view
      invariant if n <= |all| then st.IsAction(i, s, n - 1, node) else node == null
      invariant buf[..offset] + ActionLines(all[n - 1..], n) == ActionLines(all, 1)
      decreases |all| + 1 - n
    {
      st.ActionNodeAt(i, s, n - 1, node);
      ActionLinesFrom(all, n - 1);
      Associative(buf[..offset], ActionLine(n, all[n - 1]), ActionLines(all[n..], n + 1));
      var line := ActionLine(n, node.data.action.path);
      if offset + |line| >= buf.Length {
        return "", true;
      }
      offset := Sprintf(buf, offset, line);
      node := node.next;
      n := n + 1;
    }
    ActionLinesFrom(all, n - 1);
    assert buf[..offset] + "" == buf[..offset];
    return buf[..offset], false;
  }

  method CmdActions(st: NavState, pid: int) returns (reply: Option<Reply>, overrun: bool)
    requires st.Valid()
    ensures overrun <==> !ReplyFits(st.View(), Actions, pid, None)
    ensures Outcome(st.View(), reply) ==
      if overrun then Outcome(st.View(), None) else Handle(st.env, st.View(), Actions, pid, None)
  {
    hide NavState.Valid, NavState.View, Handle;
    ghost var i;
    var s;
    s, i := st.FindShell(pid);
    if s == null {
      NoShellStep(st.env, st.View(), Actions, pid, None);
      return None, false;
    }
    StackStep(st.env, st.View(), Actions, pid, None, i);
    var text;
    text, overrun := ActionsText(st, s, i);
    reply := if overrun then None else Some(Reply(s.addr, text));
  }

  method CmdReset(st: NavState, pid: int) returns (reply: Option<Reply>)
    requires st.Valid()
    modifies st.Repr, st.heap
    ensures st.Valid() && st.Repr == old(st.Repr)
    ensures Outcome(st.View(), reply) == Handle(st.env, old(st.View()), Reset, pid, None)
  {
    hide NavState.Valid, NavState.View, Handle;
    ghost var i;
    var s;
    s, i := st.FindShell(pid);
    if s == null {
      NoShellStep(st.env, st.View(), Reset, pid, None);
      return None;
    }
    StackStep(st.env, st.View(), Reset, pid, None, i);
    st.ClearActions(s, i);
    return Some(Reply(s.addr, "OK\n"));
  }

  // The tags

  /** The last line is part of every rest. */
  lemma {:induction false} LastLine(tags: seq<Tag>)
    requires tags != []
    ensures |ShowLine(tags[|tags| - 1])| <= |ShowText(tags)|
  {
    if |tags| > 1 { LastLine(tags[1..]); }
  }

  lemma ShowTextFrom(tags: seq<Tag>, k: nat)
    requires k <= |tags|
    ensures ShowText(tags[k..]) == if k == |tags| then "" else ShowLine(tags[k]) + ShowText(tags[k + 1..])
    ensures tags[0..] == tags
  {
    if k < |tags| { assert tags[k..][1..] == tags[k + 1..]; }
  }

  lemma HoldsNothing(buf: seq<char>)
    requires buf != [] && buf[0] == '\0'
    ensures Holds(buf, "")
  {
  }

  lemma HeldText(buf: seq<char>, text: string)
    requires Holds(buf, text) && buf != []
    ensures Truncate(text, |buf|) == if |text| < |buf| then buf[..|text|] else buf[..|buf| - 1]
  {
  }

  /** After `k` lines, the last of which started within the buffer. */
  predicate Shown(tags: seq<Tag>, k: nat, lines: string) {
    && k <= |tags|
    && lines + ShowText(tags[k..]) == ShowText(tags)
    && (k > 0 ==> |lines| <= SHOW_SIZE + |ShowLine(tags[k - 1])|)
  }

  lemma ShownNone(tags: seq<Tag>)
    ensures Shown(tags, 0, "")
  {
    ShowTextFrom(tags, 0);
    assert "" + ShowText(tags) == ShowText(tags);
  }

  lemma ShownNext(tags: seq<Tag>, k: nat, lines: string)
    requires Shown(tags, k, lines) && k < |tags|
    ensures if |lines| > SHOW_SIZE then !ShowFits(tags) else Shown(tags, k + 1, lines + ShowLine(tags[k]))
  {
    hide ShowText, ShowLine;
    ShowTextFrom(tags, k);
    LastLine(tags[k..]);
    Associative(lines, ShowLine(tags[k]), ShowText(tags[k + 1..]));
  }

  lemma ShownAll(tags: seq<Tag>, lines: string)
    requires Shown(tags, |tags|, lines)
    ensures lines == ShowText(tags) && ShowFits(tags)
  {
    ShowTextFrom(tags, |tags|);
    assert lines + "" == lines;
  }

  /** The loop of `cmd_show` over the list. */
  method TagLines(st: NavState) returns (text: string, overrun: bool)
    requires st.Valid()
    ensures overrun <==> !ShowFits(st.View().tags)
    ensures !overrun ==> text == ShowReply(st.View().tags)
  {
    hide NavState.Valid, NavState.View, ShowText, ShowLine, ShowFits, Shown, Holds;
    st.TagHead();
    ghost var view := st.View();
    ghost var all := view.tags;
    ghost var k, lines := 0, "";
    var buf := new char[SHOW_SIZE](_ => '\0');
    var offset := 0;
    HoldsNothing(buf[..]);
    ShownNone(all);
    var node := st.tags.head;
    while node != null
      invariant 0 <= k <= |all| && fresh(buf) && buf !in st.Repr
      invariant st.Valid() && st.View() == view
      invariant if k < |all| then st.IsTag(k, node) else node == null
      invariant Shown(all, k, lines) && Holds(buf[..], lines) && offset == |lines|
      decreases |all| - k
    {
      st.TagNodeAt(k, node);
      ShownNext(all, k, lines);
      if offset > buf.Length {
        return "", true;
      }
      var line := ShowLine(Tag(node.data.cell.name, node.data.cell.path));
      var n := Snprintf(buf, offset, line, lines);
      offset, lines := offset + n, lines + line;
      node := node.next;
      k := k + 1;
    }
    ShownAll(all, lines);
    HeldText(buf[..], lines);
    return if offset < SHOW_SIZE then buf[..offset] else buf[..SHOW_SIZE - 1], false;
  }

  method CmdShow(st: NavState, pid: int) returns (reply: Option<Reply>, overrun: bool)
    requires st.Valid()
    ensures overrun <==> !ReplyFits(st.View(), Show, pid, None)
    ensures Outcome(st.View(), reply) ==
      if overrun then Outcome(st.View(), None) else Handle(st.env, st.View(), Show, pid, None)
  {
    hide NavState.Valid, NavState.View, Handle;
    ghost var i;
    var s;
    s, i := st.FindShell(pid);
    if s == null {
      NoShellStep(st.env, st.View(), Show, pid, None);
      return None, false;
    }
    TagStep(st.env, st.View(), Show, pid, None, i);
    var text;
    text, overrun := TagLines(st);
    reply := if overrun then None else Some(Reply(s.addr, text));
  }

  lemma SpacedNamesFrom(tags: seq<Tag>, k: nat)
    requires k <= |tags|
    ensures SpacedNames(tags[k..]) == if k == |tags| then "" else tags[k].name + " " + SpacedNames(tags[k + 1..])
  {
    if k < |tags| { assert tags[k..][1..] == tags[k + 1..]; }
  }

  lemma ListIsNames(tags: seq<Tag>)
    ensures ListText(tags) == var s := SpacedNames(tags); if s == "" then "" else s[..|s| - 1]
  {
  }

  /** The loop of `cmd_list` over the list. */
  method TagNames(st: NavState) returns (text: string, overrun: bool)
    requires st.Valid()
    ensures overrun <==> |SpacedNames(st.View().tags)| >= LIST_SIZE
    ensures !overrun ==> text == ListText(st.View().tags)
  {
    hide NavState.Valid, NavState.View, SpacedNames, ListText;
    st.TagHead();
    ghost var view := st.View();
    ghost var all := view.tags;
    ghost var k := 0;
    var buf := new char[LIST_SIZE](_ => '\0');
    var offset := 0;
    assert all[0..] == all;
    var node := st.tags.head;
    while node != null
      invariant 0 <= k <= |all| && fresh(buf) && buf !in st.Repr && 0 <= offset < buf.Length
      invariant st.Valid() && st.View() == view
      invariant if k < |all| then st.IsTag(k, node) else node == null
      invariant buf[..offset] + SpacedNames(all[k..]) == SpacedNames(all)
      decreases |all| - k
    {
      st.TagNodeAt(k, node);
      SpacedNamesFrom(all, k);
      Associative(buf[..offset], all[k].name + " ", SpacedNames(all[k + 1..]));
      var name := node.data.cell.name + " ";
      if offset + |name| >= buf.Length {
        return "", true;
      }
      offset := Sprintf(buf, offset, name);
      node := node.next;
      k := k + 1;
    }
    SpacedNamesFrom(all, k);
    ListIsNames(all);
    if offset > 0 {
      offset := offset - 1;
      buf[offset] := '\0';
    }
    return buf[..offset], false;
  }

  method CmdList(st: NavState, pid: int) returns (reply: Option<Reply>, overrun: bool)
    requires st.Valid()
    ensures overrun <==> !ReplyFits(st.View(), List, pid, None)
    ensures Outcome(st.View(), reply) ==
      if overrun then Outcome(st.View(), None) else Handle(st.env, st.View(), List, pid, None)
  {
    hide NavState.Valid, NavState.View, Handle;
    ghost var i;
    var s;
    s, i := st.FindShell(pid);
    if s == null {
      NoShellStep(st.env, st.View(), List, pid, None);
      return None, false;
    }
    TagStep(st.env, st.View(), List, pid, None, i);
    var text;
    text, overrun := TagNames(st);
    reply := if overrun then None else Some(Reply(s.addr, text));
  }

  /** One `strtok_r` call takes the next word. */
  lemma NextWord(b: seq<char>, line: nat, n: nat)
    requires Terminated(b, line) && n > 0
    ensures var t := Strtok(b, line, {' '}); var ws := Words(At(b, line));
      if t.tok < 0 then ws == [] && CutWords(b, line, n) == t.buf
      else
        && ws != [] && ws[0] == At(t.buf, t.tok) && ws[1..] == Words(At(t.buf, t.save))
        && CutWords(b, line, n) == if n == 1 then t.buf else CutWords(t.buf, t.save, n - 1)
  {
    hide Strtok, Skip, UpTo, After, At;
    StrtokSplits(b, line, {' '});
  }

  /** The first word of the arguments, cut at a newline. */
  method FirstArg(buf: array<char>, args: nat) returns (arg: Option<string>)
    requires Terminated(buf[..], args)
    modifies buf
    ensures buf[..] == CutWords(old(buf[..]), args, 1)
    ensures var ws := Words(At(old(buf[..]), args));
      arg == if ws == [] then None else Some(Trim(ws[0]))
  {
    hide Words, CutWords, Strtok, Skip, UpTo, After, At, End, Trim;
    NextWord(buf[..], args, 1);
    var tok, save := StrtokR(buf, args, {' '});
    if tok < 0 {
      return None;
    }
    var tag := CopyTrimmed(buf, tok);
    return Some(tag);
  }

  /** The reply to a `get` that finds its tag fits exactly when the path and its newline do. */
  lemma FoundFits(s: State, pid: int, args: string, words: seq<string>)
    requires ShellIndex(s.shells, pid) < |s.shells| && words == Words(args)
    ensures ReplyFits(s, Get, pid, Some(args)) <==>
      words == [] || var i := TagIndex(s.tags, Trim(words[0])); i == |s.tags| || |s.tags[i].path + "\n"| < GET_SIZE
  {
    hide Words, Trim, TagIndex;
  }

  /** The reply that `get` formats for one name. */
  method FormatTag(st: NavState, addr: string, tag: string) returns (reply: Option<Reply>, overrun: bool)
    requires st.Valid()
    ensures var tags := st.View().tags; var i := TagIndex(tags, tag);
      if i == |tags| then !overrun && reply == Some(Reply(addr, "BAD\n"))
      else
        && (overrun <==> |tags[i].path + "\n"| >= GET_SIZE)
        && reply == if overrun then None else Some(Reply(addr, tags[i].path + "\n"))
  {
    hide NavState.Valid, NavState.View;
    ghost var j;
    var node;
    node, j := st.FindTag(tag);
    if node == null {
      return Some(Reply(addr, "BAD\n")), false;
    }
    st.TagNodeAt(j, node);
    var text;
    text, overrun := Formatted(node.data.cell.path + "\n", GET_SIZE);
    reply := if overrun then None else Some(Reply(addr, text));
  }

  method CmdGet(st: NavState, pid: int, buf: array<char>, args: int) returns (reply: Option<Reply>, overrun: bool)
    requires st.Valid() && IsPointer(buf[..], args) && buf !in st.Repr
    requires CanHandle(st.View(), Get, pid, ArgString(buf[..], args))
    modifies buf
    ensures st.Valid()
    ensures buf[..] == CommandCut(old(st.View()), Get, pid, old(buf[..]), args)
    ensures overrun <==> !ReplyFits(old(st.View()), Get, pid, ArgString(old(buf[..]), args))
    ensures Outcome(st.View(), reply) ==
      if overrun then Outcome(old(st.View()), None)
      else Handle(st.env, old(st.View()), Get, pid, ArgString(old(buf[..]), args))
  {
    hide NavState.Valid, NavState.View, Handle, Words, Trim, ReplyFits, CutWords;
    ghost var i;
    var s;
    s, i := st.FindShell(pid);
    if s == null {
      NoShellStep(st.env, st.View(), Get, pid, ArgString(buf[..], args));
      return None, false;
    }
    ghost var line := At(buf[..], args);
    FoundFits(st.View(), pid, line, Words(line));
    var arg := FirstArg(buf, args);
    NameStep(st.env, st.View(), pid, line, i, arg);
    if arg.None? {
      return None, false;
    }
    reply, overrun := FormatTag(st, s.addr, arg.value);
  }

  datatype ParsedArgs = TooFew | TooMany | Two(tag: string, path: string)

  /** The tokenising loop of `cmd_add`. */
  method ParseAddArgs(buf: array<char>, args: nat) returns (r: ParsedArgs)
    requires Terminated(buf[..], args)
    modifies buf
    ensures buf[..] == CutWords(old(buf[..]), args, 3)
    ensures var ws := Words(At(old(buf[..]), args));
      r == if |ws| < 2 then TooFew else if |ws| > 2 then TooMany else Two(Trim(ws[0]), Trim(ws[1]))
  {
    hide Words, CutWords, Strtok, Skip, UpTo, After, At, End, Trim;
    ghost var ws := Words(At(buf[..], args));
    var j, line := 1, args;
    var tag, path := "", "";
    while true
      invariant 1 <= j <= 3 && Terminated(buf[..], line)
      invariant CutWords(buf[..], line, 4 - j) == CutWords(old(buf[..]), args, 3)
      invariant j <= |ws| + 1 && Words(At(buf[..], line)) == ws[j - 1..]
      invariant j > 1 ==> tag == Trim(ws[0])
      invariant j > 2 ==> path == Trim(ws[1])
      decreases 3 - j
    {
      NextWord(buf[..], line, 4 - j);
      var token, save := StrtokR(buf, line, {' '});
      if token < 0 {
        break;
      }
      if j == 1 {
        tag := CopyTrimmed(buf, token);
      } else if j == 2 {
        path := CopyTrimmed(buf, token);
      } else {
        return TooMany;
      }
      j, line := j + 1, save;
    }
    if j < 3 {
      return TooFew;
    }
    return Two(tag, path);
  }

  /** Updates the path of a known tag in place, or appends a new one. */
  method StoreTag(st: NavState, tag: string, path: string)
    requires st.Valid()
    modifies st.Repr, st.heap
    ensures st.Valid() && fresh(st.Repr - old(st.Repr))
    ensures st.View() == old(st.View()).(tags := PutTag(old(st.View()).tags, Tag(tag, path)))
  {
    hide NavState.Valid, NavState.View;
    ghost var i;
    var node;
    node, i := st.FindTag(tag);
    if node != null {
      st.SetPath(node, path, i);
    } else {
      st.AppendTag(tag, path);
    }
  }

  lemma RecordTextsFrom(tags: seq<Tag>, k: nat)
    requires k <= |tags|
    ensures RecordTexts(tags[k..]) == if k == |tags| then "" else RecordText(tags[k]) + RecordTexts(tags[k + 1..])
    ensures tags[0..] == tags
  {
    if k < |tags| { assert tags[k..][1..] == tags[k + 1..]; }
  }

  /** `write_tag_file`. */
  method WriteTagFile(st: NavState)
    requires st.Valid()
    modifies st`file
    ensures st.Valid() && st.View() == old(st.View()).(file := Write(old(st.View()).tags))
  {
    hide NavState.Valid, NavState.View, RecordTexts, RecordText;
    st.TagHead();
    ghost var all := st.View().tags;
    ghost var k := 0;
    var text := "";
    assert all[0..] == all;
    assert text + RecordTexts(all) == RecordTexts(all);
    var node := st.tags.head;
    while node != null
      invariant 0 <= k <= |all|
      invariant if k < |all| then st.IsTag(k, node) else node == null
      invariant text + RecordTexts(all[k..]) == RecordTexts(all)
      modifies {}
      decreases |all| - k
    {
      st.TagNodeAt(k, node);
      RecordTextsFrom(all, k);
      Associative(text, RecordText(all[k]), RecordTexts(all[k + 1..]));
      text := text + RecordText(Tag(node.data.cell.name, node.data.cell.path));
      node := node.next;
      k := k + 1;
    }
    RecordTextsFrom(all, k);
    assert text + "" == text;
    st.SetFile(text + "\n");
  }

  method CmdAdd(st: NavState, pid: int, buf: array<char>, args: int) returns (reply: Option<Reply>)
    requires st.Valid() && IsPointer(buf[..], args) && buf !in st.Repr
    requires CanHandle(st.View(), Add, pid, ArgString(buf[..], args))
    modifies buf, st.Repr, st.heap
    ensures st.Valid() && fresh(st.Repr - old(st.Repr))
    ensures buf[..] == CommandCut(old(st.View()), Add, pid, old(buf[..]), args)
    ensures Outcome(st.View(), reply) == Handle(st.env, old(st.View()), Add, pid, ArgString(old(buf[..]), args))
  {
    hide NavState.Valid, NavState.View, Handle, Words, Trim, CutWords;
    ghost var i;
    var s;
    s, i := st.FindShell(pid);
    if s == null {
      NoShellStep(st.env, st.View(), Add, pid, ArgString(buf[..], args));
      return None;
    }
    ghost var line := At(buf[..], args);
    var parsed := ParseAddArgs(buf, args);
    AddStep(st.env, st.View(), pid, line, i, Words(line));
    if !parsed.Two? || !st.env.valid(parsed.path) {
      return Some(Reply(s.addr, "BAD\n"));
    }
    StoreTag(st, parsed.tag, parsed.path);
    WriteTagFile(st);
    return Some(Reply(s.addr, "OK\n"));
  }

  method CmdDelete(st: NavState, pid: int, buf: array<char>, args: int) returns (reply: Option<Reply>)
    requires st.Valid() && IsPointer(buf[..], args) && buf !in st.Repr
    requires CanHandle(st.View(), Delete, pid, ArgString(buf[..], args))
    modifies buf, st.Repr, st.heap
    ensures st.Valid() && st.Repr == old(st.Repr)
    ensures buf[..] == CommandCut(old(st.View()), Delete, pid, old(buf[..]), args)
    ensures Outcome(st.View(), reply) == Handle(st.env, old(st.View()), Delete, pid, ArgString(old(buf[..]), args))
  {
    hide NavState.Valid, NavState.View, Handle, Words, Trim, CutWords;
    ghost var i;
    var s;
    s, i := st.FindShell(pid);
    if s == null {
      NoShellStep(st.env, st.View(), Delete, pid, ArgString(buf[..], args));
      return None;
    }
    ghost var line := At(buf[..], args);
    var arg := FirstArg(buf, args);
    NameStep(st.env, st.View(), pid, line, i, arg);
    if arg.None? {
      return None;
    }
    var tag := arg.value;
    ghost var j;
    var node;
    node, j := st.FindTag(tag);
    if node == null {
      return Some(Reply(s.addr, "BAD\n"));
    }
    st.RemoveTag(tag, j);
    WriteTagFile(st);
    return Some(Reply(s.addr, "OK\n"));
  }

  // Dispatch

  /** The other commands ignore their arguments. */
  lemma ArgsUnused(env: Env, s: State, c: Command, pid: int, args: Option<string>)
    requires CanHandle(s, c, pid, args)
    ensures !NeedsArgs(c) && c != Push ==>
      && Handle(env, s, c, pid, args) == Handle(env, s, c, pid, None)
      && (ReplyFits(s, c, pid, args) <==> ReplyFits(s, c, pid, None))
  {
    var i := ShellIndex(s.shells, pid);
    if i < |s.shells| && IsStackCommand(c) && c != Push {
      assert OnStack(env.valid, s.shells[i].actions, c, args) == OnStack(env.valid, s.shells[i].actions, c, None);
    } else if IsTagCommand(c) && !NeedsArgs(c) {
      assert OnTags(env.valid, s.tags, c, args) == OnTags(env.valid, s.tags, c, None);
    }
  }

  /** The call through the function pointer in the table. */
  method CallHandler(st: NavState, c: Command, pid: int, buf: array<char>, args: int)
      returns (reply: Option<Reply>, overrun: bool)
    requires st.Valid() && IsPointer(buf[..], args) && buf !in st.Repr
    requires CanHandle(st.View(), c, pid, ArgString(buf[..], args))
    modifies buf, st.Repr, st.heap
    ensures st.Valid() && fresh(st.Repr - old(st.Repr))
    ensures buf[..] == CommandCut(old(st.View()), c, pid, old(buf[..]), args)
    ensures overrun <==> !ReplyFits(old(st.View()), c, pid, ArgString(old(buf[..]), args))
    ensures Outcome(st.View(), reply) ==
      if overrun then Outcome(old(st.View()), None)
      else Handle(st.env, old(st.View()), c, pid, ArgString(old(buf[..]), args))
  {
    hide NavState.Valid, NavState.View, Handle;
    ArgsUnused(st.env, st.View(), c, pid, ArgString(buf[..], args));
    overrun := false;
    match c
    case Register => reply := CmdRegister(st, pid);
    case Unregister => reply := CmdUnregister(st, pid);
    case Add => reply := CmdAdd(st, pid, buf, args);
    case Delete => reply := CmdDelete(st, pid, buf, args);
    case Show => reply, overrun := CmdShow(st, pid);
    case Get => reply, overrun := CmdGet(st, pid, buf, args);
    case Push => reply := CmdPush(st, pid, buf, args);
    case Pop => reply, overrun := CmdPop(st, pid);
    case Actions => reply, overrun := CmdActions(st, pid);
    case List => reply, overrun := CmdList(st, pid);
    case Reset => reply := CmdReset(st, pid);
  }

  /** `dispatch_command`: the first table entry whose name starts the string. */
  method DispatchCommand(st: NavState, cmd: string, pid: int, buf: array<char>, args: int)
      returns (reply: Option<Reply>, overrun: bool)
    requires st.Valid() && IsPointer(buf[..], args) && buf !in st.Repr
    requires CanAct(st.View(), Request(pid, cmd, ArgString(buf[..], args)))
    modifies buf, st.Repr, st.heap
    ensures st.Valid() && fresh(st.Repr - old(st.Repr))
    ensures buf[..] == if Dispatch(cmd).None? then old(buf[..])
      else CommandCut(old(st.View()), Dispatch(cmd).value, pid, old(buf[..]), args)
    ensures overrun <==> !FitsReply(old(st.View()), Request(pid, cmd, ArgString(old(buf[..]), args)))
    ensures Outcome(st.View(), reply) ==
      if overrun then Outcome(old(st.View()), None)
      else Act(st.env, old(st.View()), Request(pid, cmd, ArgString(old(buf[..]), args)))
  {
    hide NavState.Valid, NavState.View, Handle;
    var i := 0;
    while i < |COMMAND_TABLE|
      invariant 0 <= i <= |COMMAND_TABLE|
      invariant Dispatch(cmd) == DispatchFrom(cmd, i)
      modifies {}
    {
      if COMMAND_TABLE[i].name <= cmd {
        break;
      }
      i := i + 1;
    }
    if i == |COMMAND_TABLE| {
      return None, false;
    }
    reply, overrun := CallHandler(st, COMMAND_TABLE[i].command, pid, buf, args);
  }
}
