/**
  The texts that the daemon sends and the file that it writes, spelled out; and that
  what `show` sends can be read back.
 */
module Texts {
  import opened CString
  import opened Decimal
  import opened TagFile
  import opened Daemon
  import opened Isolation
  import opened TagMap

  // Spelled out

  function ShownLines(tags: seq<Tag>): seq<string> {
    seq(|tags|, i requires 0 <= i < |tags| => tags[i].name + " --> " + tags[i].path + "\n")
  }

  lemma {:induction false} ShowTextIs(tags: seq<Tag>)
    ensures ShowText(tags) == Concat(ShownLines(tags))
  {
    if tags != [] {
      ShowTextIs(tags[1..]);
      assert ShownLines(tags)[1..] == ShownLines(tags[1..]);
    }
  }

  function SavedLines(tags: seq<Tag>): seq<string> {
    seq(|tags|, i requires 0 <= i < |tags| => tags[i].name + "=" + tags[i].path + "\n")
  }

  lemma {:induction false} RecordTextsAre(tags: seq<Tag>)
    ensures RecordTexts(tags) == Concat(SavedLines(tags))
  {
    if tags != [] {
      RecordTextsAre(tags[1..]);
      assert SavedLines(tags)[1..] == SavedLines(tags[1..]);
    }
  }

  /** The tag file: a line for every tag, and a blank line. */
  lemma WriteIs(tags: seq<Tag>)
    ensures Write(tags) == Concat(SavedLines(tags)) + "\n"
  {
    RecordTextsAre(tags);
  }

  /** Numbered from `n` on. */
  function NumberedLines(actions: seq<string>, n: nat): seq<string> {
    seq(|actions|, i requires 0 <= i < |actions| => "    " + PrintInt(n + i) + ". " + actions[i] + "\n")
  }

  lemma {:induction false} ActionLinesAre(actions: seq<string>, n: nat)
    ensures ActionLines(actions, n) == Concat(NumberedLines(actions, n))
    decreases |actions|
  {
    if actions != [] {
      ActionLinesAre(actions[1..], n + 1);
      var lines, rest := NumberedLines(actions, n), NumberedLines(actions[1..], n + 1);
      forall i | 0 <= i < |rest| ensures lines[1..][i] == rest[i] {
        assert n + 1 + i == n + (i + 1);
      }
      assert PrintInt(n + 0) == Dec(n);
      assert lines[1..] == rest && lines[0] == ActionLine(n, actions[0]);
    }
  }

  function NamesSpaced(tags: seq<Tag>): seq<string> {
    seq(|tags|, i requires 0 <= i < |tags| => tags[i].name + " ")
  }

  lemma {:induction false} SpacedNamesAre(tags: seq<Tag>)
    ensures SpacedNames(tags) == Concat(NamesSpaced(tags))
  {
    if tags != [] {
      SpacedNamesAre(tags[1..]);
      assert NamesSpaced(tags)[1..] == NamesSpaced(tags[1..]);
    }
  }

  /** What the texts without arguments come to, for a registered shell. */
  lemma TextReplies(env: Env, s: State, m: Message)
    requires StackOf(s.shells, m.pid).Some?
    ensures Dispatch(m.cmd) == Some(Show) ==>
      var text := Concat(ShownLines(s.tags));
      TextOf(Step(env, s, m).reply) == Some(if |text| < 2048 then text else text[..2047])
    ensures Dispatch(m.cmd) == Some(List) ==>
      var text := Concat(NamesSpaced(s.tags));
      TextOf(Step(env, s, m).reply) == Some(if text == "" then "" else text[..|text| - 1])
    ensures Dispatch(m.cmd) == Some(Actions) ==>
      TextOf(Step(env, s, m).reply) == Some(Concat(NumberedLines(StackOf(s.shells, m.pid).value, 1)))
  {
    hide ShowText, SpacedNames, ActionLines, ShownLines, NamesSpaced, NumberedLines, Concat, Dispatch;
    ShowTextIs(s.tags);
    SpacedNamesAre(s.tags);
    ActionLinesAre(StackOf(s.shells, m.pid).value, 1);
  }

  // Reading back what `show` sends

  /** The tags in a text: every line is a name up to its first space, and a path behind ` --> `. */
  function ShownTags(text: string): seq<Tag>
    decreases |text|
  {
    if text == "" then []
    else
      var line := UpTo(text, {'\n'});
      var name := UpTo(line, {' '});
      var rest := line[|name|..];
      [Tag(name, if " --> " <= rest then rest[5..] else "")] + ShownTags(After(text, {'\n'}))
  }

  /** A line ends at its newline, and a name at the first space. */
  lemma CutBehind(head: string, tail: string, delims: set<char>)
    requires forall k | 0 <= k < |head| :: head[k] !in delims
    requires tail != "" && tail[0] in delims
    ensures UpTo(head + tail, delims) == head && After(head + tail, delims) == tail[1..]
  {
    var s := head + tail;
    assert forall k | 0 <= k < |head| :: s[k] == head[k];
    CSpanIs(s, delims, |head|);
  }

  lemma NoNewline(name: string, path: string)
    requires Plain(name) && Plain(path)
    ensures var line := name + " --> " + path; forall k | 0 <= k < |line| :: line[k] != '\n'
  {
  }

  lemma ShowLineParts(t: Tag, rest: string)
    requires Plain(t.name) && Plain(t.path)
    ensures var text := ShowLine(t) + rest; var line := t.name + " --> " + t.path;
      && UpTo(text, {'\n'}) == line && After(text, {'\n'}) == rest
      && UpTo(line, {' '}) == t.name && line[|t.name|..] == " --> " + t.path
  {
    var line := t.name + " --> " + t.path;
    assert ShowLine(t) + rest == line + ("\n" + rest) && ("\n" + rest)[1..] == rest;
    assert line == t.name + (" --> " + t.path);
    NoNewline(t.name, t.path);
    hide UpTo, After, ShowLine;
    CutBehind(line, "\n" + rest, {'\n'});
    CutBehind(t.name, " --> " + t.path, {' '});
  }

  lemma ShownFirst(t: Tag, rest: string)
    requires Plain(t.name) && Plain(t.path)
    ensures ShownTags(ShowLine(t) + rest) == [t] + ShownTags(rest)
  {
    ShowLineParts(t, rest);
    assert (" --> " + t.path)[5..] == t.path;
    assert ShowLine(t) != "";
    hide After, UpTo, ShowLine, Plain;
  }

  lemma {:induction false} ShowTextRoundTrip(tags: seq<Tag>)
    requires forall i | 0 <= i < |tags| :: Clean(tags[i])
    ensures ShownTags(ShowText(tags)) == tags
  {
    if tags != [] {
      hide ShownTags, ShowLine, Plain;
      ShowTextRoundTrip(tags[1..]);
      assert Clean(tags[0]);
      ShownFirst(tags[0], ShowText(tags[1..]));
      assert tags == [tags[0]] + tags[1..];
    }
  }

  /**
    `show`, read back: the reply gives the tags, names and paths in order, if it fits its
    2048 bytes with a NUL; otherwise it is the first 2047 bytes of the text that does.
   */
  lemma ShowRoundTrip(env: Env, s: State, m: Message)
    requires StackOf(s.shells, m.pid).Some? && Dispatch(m.cmd) == Some(Show) && CleanTags(s.tags)
    ensures var reply, text := TextOf(Step(env, s, m).reply), Concat(ShownLines(s.tags));
      && reply.Some? && ShownTags(text) == s.tags
      && if |text| <= 2047 then ShownTags(reply.value) == s.tags else reply.value == text[..2047]
  {
    hide Step, StackOf, Dispatch, ShowText, ShownLines, ShownTags, Concat;
    TextReplies(env, s, m);
    ShowTextIs(s.tags);
    ShowTextRoundTrip(s.tags);
  }
}
