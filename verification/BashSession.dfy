/**
  The shell function `nav` calling the client, the client sending to the daemon, and
  the daemon serving from its reused buffer, with other shells' datagrams in between.

  `NavOn` and `BackOn` say on values what this comes to for every input.  Where the daemon
  keeps running and no stale byte disturbs the session, it is what `NavScript` says.
 */
module BashSession {
  import opened CString
  import opened Decimal
  import opened TagFile
  import opened Daemon
  import opened ActionStack
  import opened Wire
  import opened ReceiveBuffer
  import opened Serving
  import opened NavDaemon
  import opened MainLoop
  import opened NavScript

  // On values

  /** The daemon, its receive buffer, and whether its loop is still running. */
  datatype Host = Host(state: State, buf: seq<char>, up: bool)

  function Down(s: State): Host {
    Host(s, [], false)
  }

  datatype Answered = Answered(host: Host, text: string)

  /** `$($NAV_CLIENT $$ cmd args)`, after these datagrams of other shells. */
  function Ask(site: Site, h: Host, others: seq<string>, l: Line): Answered {
    if !h.up then Answered(Down(h.state), "")
    else
      var r := Serve(site.env, h.state, h.buf, others);
      if r.end != NoMore then Answered(Down(r.state), "")
      else
        var b := BufferThen(site.env, h.state, h.buf, others);
        var t := Arrives(site.env, r.state, b, Datagram(l));
        Answered(
          if t.end == NoMore then Host(t.state, BufferLeft(r.state, b, Datagram(l)), true) else Down(t.state),
          Captured(site, t.reply))
  }

  /** The datagrams of other shells before each client call of one command. */
  datatype Others = Others(register: seq<string>, query: seq<string>, push: seq<string>)

  datatype Session = Session(host: Host, cwd: string, said: Said)

  function RegisterLine(site: Site): Line {
    Line(site.pid, "register", [])
  }

  function GetLine(site: Site, tag: string): Line {
    Line(site.pid, "get", [tag])
  }

  function PushLine(site: Site, cwd: string): Line {
    Line(site.pid, "push", [StripNewlines(cwd)])
  }

  function PopLine(site: Site): Line {
    Line(site.pid, "pop", [])
  }

  function Arrive(site: Site, h: Host, cwd: string, dir: string): Session {
    var r := ChangeDir(site, World(h.state, cwd), dir);
    Session(h, r.world.cwd, r.said)
  }

  /** `nav [tag]`, the branch for a word that is no subcommand. */
  function NavOn(site: Site, h: Host, cwd: string, tag: string, others: Others): Session {
    var connected := Ask(site, h, others.register, RegisterLine(site));
    if connected.text == "" then Session(connected.host, cwd, Unreachable)
    else if tag == "" then Session(connected.host, cwd, Usage)
    else
      var dir := Ask(site, connected.host, others.query, GetLine(site, tag));
      if dir.text == "BAD" || dir.text == "" then Session(dir.host, cwd, NotFound)
      else
        var output := Ask(site, dir.host, others.push, PushLine(site, cwd));
        if output.text != "OK" then Session(output.host, cwd, PushRefused)
        else Arrive(site, output.host, cwd, dir.text)
  }

  /** `nav back`. */
  function BackOn(site: Site, h: Host, cwd: string, others: Others): Session {
    var connected := Ask(site, h, others.register, RegisterLine(site));
    if connected.text == "" then Session(connected.host, cwd, Unreachable)
    else
      var dir := Ask(site, connected.host, others.query, PopLine(site));
      if dir.text != "" && dir.text != "BAD" then Arrive(site, dir.host, cwd, dir.text)
      else Session(dir.host, cwd, NoActions)
  }

  /** The daemon does not run, or ends before the first call of a command. */
  predicate IsGone(site: Site, h: Host, others: Others) {
    !h.up || Serve(site.env, h.state, h.buf, others.register).end != NoMore
  }

  /** Then both commands say that it is unreachable, and stay. */
  lemma GoneIsUnreachable(site: Site, h: Host, cwd: string, tag: string, others: Others)
    requires IsGone(site, h, others)
    ensures var r := NavOn(site, h, cwd, tag, others); r.said == Unreachable && r.cwd == cwd && !r.host.up
    ensures var r := BackOn(site, h, cwd, others); r.said == Unreachable && r.cwd == cwd && !r.host.up
  {
  }

  lemma OnlyRunningAnswers(site: Site, h: Host, others: seq<string>, l: Line)
    ensures var a := Ask(site, h, others, l); a.text != "" ==> a.host.up && h.up
  {
    hide Serve, BufferThen, Arrives, BufferLeft, Datagram, StripNewlines;
    if h.up && Serve(site.env, h.state, h.buf, others).end == NoMore {
      var r, b := Serve(site.env, h.state, h.buf, others), BufferThen(site.env, h.state, h.buf, others);
      if Arrives(site.env, r.state, b, Datagram(l)).end != NoMore {
        EndIsSilent(site.env, r.state, b, Datagram(l));
      }
    }
  }

  /** Whenever the daemon ends, the shell stays where it is, and says what it did not get. */
  lemma StaysWithoutDaemon(site: Site, h: Host, cwd: string, tag: string, others: Others)
    ensures var r := NavOn(site, h, cwd, tag, others);
      !r.host.up ==> r.cwd == cwd && (r.said == Unreachable || r.said == NotFound || r.said == PushRefused)
    ensures var r := BackOn(site, h, cwd, others);
      !r.host.up ==> r.cwd == cwd && (r.said == Unreachable || r.said == NoActions)
  {
    hide Ask, StripNewlines;
    OnlyRunningAnswers(site, h, others.register, RegisterLine(site));
    var h1 := Ask(site, h, others.register, RegisterLine(site)).host;
    OnlyRunningAnswers(site, h1, others.query, PopLine(site));
    OnlyRunningAnswers(site, h1, others.query, GetLine(site, tag));
    var h2 := Ask(site, h1, others.query, GetLine(site, tag)).host;
    OnlyRunningAnswers(site, h2, others.push, PushLine(site, cwd));
    assert "OK" != "";
  }

  // Against the script

  /**
    The daemon gets the line as it was meant: it is running behind the other datagrams,
    the line fits the buffer and is not affected by what is behind it there, and so does
    the reply fit its own.
   */
  predicate Reaches(site: Site, h: Host, others: seq<string>, l: Line) {
    && h.up && |h.buf| == BUFFER_SIZE && Complete(l)
    && var r, b := Serve(site.env, h.state, h.buf, others), BufferThen(site.env, h.state, h.buf, others);
      && r.end == NoMore
      && Terminated(Receive(b, Datagram(l)), 0)
      && Unaffected(site.env, r.state, l, Stale(b, |Datagram(l)|))
      && FitsReply(r.state, RequestOf(l, ""))
  }

  /** A line whose meaning no stale byte can change. */
  predicate Robust(l: Line) {
    && Complete(l) && Dispatch(l.cmd) != Some(Add)
    && (Dispatch(l.cmd) == Some(Get) || Dispatch(l.cmd) == Some(Delete) ==> Words(Encode(l.args)) != [])
    && (Dispatch(l.cmd) == Some(Push) ==> l.args != [])
  }

  /** Such a line reaches a running daemon whose buffer ends in NUL, if the reply fits. */
  lemma RobustReaches(site: Site, h: Host, l: Line)
    requires h.up && IsBuffer(h.buf) && Robust(l) && FitsReply(h.state, RequestOf(l, ""))
    ensures Reaches(site, h, [], l)
  {
    hide Dispatch, Words, FitsReply;
    ReceiveKeepsNul(h.buf, Datagram(l));
    assert Serve(site.env, h.state, h.buf, []) == Served(h.state, [], NoMore);
  }

  /** The messages that these datagrams come to. */
  function GapOf(site: Site, h: Host, others: seq<string>): Gap {
    ActedOn(site.env, h.state, h.buf, others)
  }

  /** Such a line is a call on values, with a gap of the other shells' messages. */
  lemma AskIsCall(site: Site, h: Host, others: seq<string>, l: Line)
    requires Reaches(site, h, others, l)
    ensures var a := Ask(site, h, others, l);
      && a.host.up && |a.host.buf| == BUFFER_SIZE
      && Answer(a.host.state, a.text) == Call(site, h.state, GapOf(site, h, others), RequestOf(l, ""))
  {
    hide Serve, BufferThen, Arrives, BufferLeft, Unaffected, FitsReply, Complete, Step, Run, ActedOn, Captured;
    ServeActs(site.env, h.state, h.buf, others);
    var r, b := Serve(site.env, h.state, h.buf, others), BufferThen(site.env, h.state, h.buf, others);
    ArrivesIsStep(site.env, r.state, b, l);
  }

  lemma RegisterIsCall(site: Site)
    requires PidOf(site.pid).Some?
    ensures RequestOf(RegisterLine(site), "") == RegisterCall(site)
  {
  }

  lemma PopIsCall(site: Site)
    requires PidOf(site.pid).Some?
    ensures RequestOf(PopLine(site), "") == PopMessage(site.Pid())
  {
  }

  lemma EncodeOne(w: string)
    ensures Encode([w]) + "" == w + " "
  {
    assert [w][1..] == [];
    assert Encode([w]) == w + " " + "";
  }

  lemma GetIsCall(site: Site, tag: string)
    requires PidOf(site.pid).Some? && NulFree(tag)
    ensures RequestOf(GetLine(site, tag), "") == GetCall(site, tag)
  {
    hide PidOf, Dispatch;
    EncodeOne(tag);
  }

  lemma PushIsCall(site: Site, cwd: string)
    requires PidOf(site.pid).Some? && NulFree(StripNewlines(cwd))
    ensures RequestOf(PushLine(site, cwd), "") == PushCall(site, StripNewlines(cwd))
  {
    hide PidOf, Dispatch, StripNewlines;
    EncodeOne(StripNewlines(cwd));
  }

  /** The gaps that the other shells' datagrams make. */
  function NavGaps(site: Site, h: Host, tag: string, others: Others): Gaps {
    var h1 := Ask(site, h, others.register, RegisterLine(site)).host;
    var h2 := Ask(site, h1, others.query, GetLine(site, tag)).host;
    Gaps(GapOf(site, h, others.register), GapOf(site, h1, others.query), GapOf(site, h2, others.push))
  }

  predicate NavReaches(site: Site, h: Host, cwd: string, tag: string, others: Others) {
    && Reaches(site, h, others.register, RegisterLine(site))
    && var h1 := Ask(site, h, others.register, RegisterLine(site)).host;
      tag != "" ==>
        && Reaches(site, h1, others.query, GetLine(site, tag))
        && Reaches(site, Ask(site, h1, others.query, GetLine(site, tag)).host, others.push, PushLine(site, cwd))
  }

  /** Then `nav [tag]` is what it is on values, with those gaps. */
  lemma NavOnIsNav(site: Site, h: Host, cwd: string, tag: string, others: Others)
    requires PidOf(site.pid).Some? && NulFree(tag) && NulFree(cwd) && tag !in SUBCOMMANDS
    requires NavReaches(site, h, cwd, tag, others)
    ensures var r := NavOn(site, h, cwd, tag, others);
      r.host.up && Landed(World(r.host.state, r.cwd), r.said)
        == Nav(site, World(h.state, cwd), tag, NavGaps(site, h, tag, others))
  {
    hide Reaches, Ask, Call, RequestOf, GapOf, PidOf, StripNewlines, NulFree;
    RegisterIsCall(site);
    AskIsCall(site, h, others.register, RegisterLine(site));
    if tag != "" {
      var h1 := Ask(site, h, others.register, RegisterLine(site)).host;
      GetIsCall(site, tag);
      AskIsCall(site, h1, others.query, GetLine(site, tag));
      var h2 := Ask(site, h1, others.query, GetLine(site, tag)).host;
      StripKeepsNulFree(cwd);
      PushIsCall(site, cwd);
      AskIsCall(site, h2, others.push, PushLine(site, cwd));
    }
  }

  function BackGaps(site: Site, h: Host, others: Others): Gaps {
    var h1 := Ask(site, h, others.register, RegisterLine(site)).host;
    Gaps(GapOf(site, h, others.register), GapOf(site, h1, others.query), [])
  }

  predicate BackReaches(site: Site, h: Host, others: Others) {
    && Reaches(site, h, others.register, RegisterLine(site))
    && Reaches(site, Ask(site, h, others.register, RegisterLine(site)).host, others.query, PopLine(site))
  }

  lemma BackOnIsBack(site: Site, h: Host, cwd: string, others: Others)
    requires PidOf(site.pid).Some? && BackReaches(site, h, others)
    ensures var r := BackOn(site, h, cwd, others);
      r.host.up && Landed(World(r.host.state, r.cwd), r.said)
        == Back(site, World(h.state, cwd), BackGaps(site, h, others))
  {
    hide Reaches, Ask, Call, RequestOf, GapOf, PidOf;
    RegisterIsCall(site);
    PopIsCall(site);
    AskIsCall(site, h, others.register, RegisterLine(site));
    AskIsCall(site, Ask(site, h, others.register, RegisterLine(site)).host, others.query, PopLine(site));
  }

  // In place

  predicate Writable(l: Line) {
    && NulFree(l.pid) && NulFree(l.cmd) && (forall i | 0 <= i < |l.args| :: NulFree(l.args[i]))
    && |Datagram(l)| < 1024
  }

  lemma DatagramIs(l: Line)
    ensures Datagram(l) == Encode([l.pid, l.cmd] + l.args)
  {
  }

  class BashShell {
    const site: Site
    var cwd: string

    constructor (site: Site, cwd: string)
      ensures this.site == site && this.cwd == cwd
    {
      this.site := site;
      this.cwd := cwd;
    }

    /** The daemon as it is now. */
    ghost function HostNow(st: NavState, buf: array<char>, up: bool): Host
      requires st.Valid()
      reads st, st.Repr, st.heap, buf
    {
      if up then Host(st.View(), buf[..], true) else Down(st.View())
    }

    /** Any call of the client, at any time. */
    method Client(st: NavState, buf: array<char>, up: bool, others: seq<string>, l: Line)
        returns (text: string, still: bool)
      requires st.Valid() && buf !in st.Repr && st.env == site.env && Writable(l)
      modifies buf, st.Repr, st.heap
      ensures st.Valid() && fresh(st.Repr - old(st.Repr))
      ensures Answered(HostNow(st, buf, still), text) == Ask(site, old(HostNow(st, buf, up)), others, l)
    {
      hide NavState.Valid, NavState.View, Serve, BufferThen, Arrives, BufferLeft, Datagram, NulFree;
      if !up {
        return "", false;
      }
      label Before:
      var replies, end := LoopOn(st, buf, others);
      assert !fresh@Before(buf);
      if end != NoMore {
        return "", false;
      }
      DatagramIs(l);
      var sent, n, overrun := ProcessCommand([l.pid, l.cmd] + l.args);
      var reply;
      reply, end := TakeTurn(st, buf, sent[..n]);
      return Captured(site, reply), end == NoMore;
    }

    /** `cd "$dir" || _nav_error` */
    method ChangeTo(dir: string) returns (said: Said)
      modifies this
      ensures match site.cd(old(cwd), dir)
        case None => said == CdFailed && cwd == old(cwd)
        case Some(d) => said == Moved && cwd == d
    {
      var to := site.cd(cwd, dir);
      match to
      case None => said := CdFailed;
      case Some(d) => cwd, said := d, Moved;
    }

    /** `nav [tag]`. */
    method Nav(st: NavState, buf: array<char>, up: bool, tag: string, others: Others)
        returns (said: Said, still: bool)
      requires st.Valid() && buf !in st.Repr && this !in st.Repr && st.env == site.env
      requires Writable(RegisterLine(site)) && Writable(GetLine(site, tag)) && Writable(PushLine(site, cwd))
      modifies this, buf, st.Repr, st.heap
      ensures st.Valid() && fresh(st.Repr - old(st.Repr))
      ensures Session(HostNow(st, buf, still), cwd, said)
        == NavOn(site, old(HostNow(st, buf, up)), old(cwd), tag, others)
    {
      hide NavState.Valid, NavState.View, Ask, Writable, StripNewlines, HostNow;
      var connected;
      connected, still := Client(st, buf, up, others.register, RegisterLine(site));
      if connected == "" {
        return Unreachable, still;
      }
      if tag == "" {
        return Usage, still;
      }
      var dir;
      dir, still := Client(st, buf, still, others.query, GetLine(site, tag));
      if dir == "BAD" || dir == "" {
        return NotFound, still;
      }
      var output;
      output, still := Client(st, buf, still, others.push, PushLine(site, cwd));
      if output != "OK" {
        return PushRefused, still;
      }
      said := ChangeTo(dir);
    }

    /** `nav back`. */
    method Back(st: NavState, buf: array<char>, up: bool, others: Others) returns (said: Said, still: bool)
      requires st.Valid() && buf !in st.Repr && this !in st.Repr && st.env == site.env
      requires Writable(RegisterLine(site)) && Writable(PopLine(site))
      modifies this, buf, st.Repr, st.heap
      ensures st.Valid() && fresh(st.Repr - old(st.Repr))
      ensures Session(HostNow(st, buf, still), cwd, said)
        == BackOn(site, old(HostNow(st, buf, up)), old(cwd), others)
    {
      hide NavState.Valid, NavState.View, Ask, Writable, HostNow;
      var connected;
      connected, still := Client(st, buf, up, others.register, RegisterLine(site));
      if connected == "" {
        return Unreachable, still;
      }
      var dir;
      dir, still := Client(st, buf, still, others.query, PopLine(site));
      if dir != "" && dir != "BAD" {
        said := ChangeTo(dir);
      } else {
        said := NoActions;
      }
    }
  }
}
