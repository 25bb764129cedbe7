/**
  The daemon's receive loop, on the heap and on its reused buffer, from start-up to
  teardown.
 */
module MainLoop {
  import opened CString
  import opened Decimal
  import opened Daemon
  import opened ReceiveBuffer
  import opened Serving
  import opened HeapList
  import opened NavDaemon
  import opened Commands
  import opened TagLoader
  import opened Teardown

  // The loop

  /** `recv`: the datagram overwrites the front of the buffer. */
  method Recv(buf: array<char>, datagram: string) returns (nbytes: nat)
    modifies buf
    ensures buf[..] == Receive(old(buf[..]), datagram)
    ensures nbytes == 0 <==> datagram == "" || buf.Length == 0
  {
    nbytes := if |datagram| <= buf.Length then |datagram| else buf.Length;
    forall k | 0 <= k < nbytes {
      buf[k] := datagram[k];
    }
  }

  /** Whether the program's string functions stay within the buffer. */
  method HasNul(buf: array<char>) returns (found: bool)
    ensures found == Terminated(buf[..], 0)
  {
    var i := 0;
    while i < buf.Length && buf[i] != '\0'
      invariant 0 <= i <= buf.Length
      invariant forall k | 0 <= k < i :: buf[k] != '\0'
    {
      i := i + 1;
    }
    EndIs(buf[..], 0, i);
    found := i < buf.Length;
  }

  /** The three `strtok_r` calls. */
  method Tokenise(buf: array<char>) returns (t: Tokens)
    requires Terminated(buf[..], 0)
    modifies buf
    ensures Scan(t, buf[..]) == Tokenised(old(buf[..]))
  {
    hide Strtok, Skip, UpTo, After, At, PidOf;
    var pidStr, save := StrtokR(buf, 0, {' '});
    if pidStr < 0 {
      return Incomplete;
    }
    var pid := PidOf(At(buf[..], pidStr));
    if pid.None? {
      return BadPid;
    }
    var cmdStr;
    cmdStr, save := StrtokR(buf, save, {' '});
    if cmdStr < 0 {
      return Incomplete;
    }
    var cmd := At(buf[..], cmdStr);
    var args;
    args, save := StrtokR(buf, save, {});
    return Tokens(pid.value, cmd, args);
  }

  /** Where the program would dereference NULL. */
  method NullArguments(st: NavState, cmd: string, pid: int, noArgs: bool) returns (stop: bool)
    requires st.Valid()
    ensures forall args: Option<string> | args.None? == noArgs ::
      stop <==> !CanAct(st.View(), Request(pid, cmd, args))
  {
    hide NavState.Valid, NavState.View, Dispatch;
    ghost var i;
    var s;
    s, i := st.FindShell(pid);
    var d := Dispatch(cmd);
    stop := noArgs && s != null && d.Some? && NeedsArgs(d.value);
  }

  /** The body of the loop for a datagram that is not empty. */
  method HandleMessage(st: NavState, buf: array<char>) returns (reply: Option<Reply>, end: LoopEnd)
    requires st.Valid() && Terminated(buf[..], 0) && buf !in st.Repr
    modifies buf, st.Repr, st.heap
    ensures st.Valid() && fresh(st.Repr - old(st.Repr))
    ensures Turn(st.View(), reply, end) == Hear(st.env, old(st.View()), At(old(buf[..]), 0))
    ensures end == NoMore ==> buf[..] == BufferAfter(old(st.View()), old(buf[..]))
  {
    hide NavState.Valid, NavState.View, Handle, Dispatch, ParseMessage, Act, CanAct, FitsReply, CommandCut, Tokenised;
    TokenisedParses(buf[..]);
    var t := Tokenise(buf);
    match t
    case Incomplete => return None, NoMore;
    case BadPid => return None, PidOutOfRange;
    case Tokens(pid, cmd, args) =>
      var stop := NullArguments(st, cmd, pid, args < 0);
      if stop {
        return None, NullArgs;
      }
      var overrun;
      reply, overrun := DispatchCommand(st, cmd, pid, buf, args);
      end := if overrun then Overrun else NoMore;
  }

  /** One turn of the loop. */
  method TakeTurn(st: NavState, buf: array<char>, datagram: string) returns (reply: Option<Reply>, end: LoopEnd)
    requires st.Valid() && buf !in st.Repr
    modifies buf, st.Repr, st.heap
    ensures st.Valid() && fresh(st.Repr - old(st.Repr))
    ensures Turn(st.View(), reply, end) == Arrives(st.env, old(st.View()), old(buf[..]), datagram)
    ensures end == NoMore ==> buf[..] == BufferLeft(old(st.View()), old(buf[..]), datagram)
  {
    hide NavState.Valid, NavState.View, Hear, BufferAfter;
    var nbytes := Recv(buf, datagram);
    if nbytes == 0 {
      return None, NoMore;
    }
    var found := HasNul(buf);
    if !found {
      return None, Unterminated;
    }
    reply, end := HandleMessage(st, buf);
  }

  lemma ServeMore(env: Env, s: State, buf: seq<char>, datagrams: seq<string>, i: nat)
    requires i < |datagrams|
    ensures var t := Arrives(env, s, buf, datagrams[i]);
      Serve(env, s, buf, datagrams[i..]) ==
        if t.end != NoMore then Served(t.state, [t.reply], t.end)
        else
          var rest := Serve(env, t.state, BufferLeft(s, buf, datagrams[i]), datagrams[i + 1..]);
          Served(rest.state, [t.reply] + rest.replies, rest.end)
    ensures BufferThen(env, s, buf, datagrams[i..]) ==
      BufferThen(env, Arrives(env, s, buf, datagrams[i]).state, BufferLeft(s, buf, datagrams[i]), datagrams[i + 1..])
  {
    hide Arrives, BufferLeft;
    assert datagrams[i..][0] == datagrams[i] && datagrams[i..][1..] == datagrams[i + 1..];
  }

  lemma BufferThenNone(env: Env, s: State, buf: seq<char>)
    ensures BufferThen(env, s, buf, []) == buf
  {
  }

  /** The replies so far, and then what is served next. */
  function FollowedBy(replies: seq<Option<Reply>>, rest: Served): Served {
    rest.(replies := replies + rest.replies)
  }

  /** The loop over the datagrams that arrive. */
  method LoopOn(st: NavState, buf: array<char>, datagrams: seq<string>)
      returns (replies: seq<Option<Reply>>, end: LoopEnd)
    requires st.Valid() && buf !in st.Repr
    modifies buf, st.Repr, st.heap
    ensures st.Valid() && fresh(st.Repr - old(st.Repr))
    ensures Served(st.View(), replies, end) == Serve(st.env, old(st.View()), old(buf[..]), datagrams)
    ensures end == NoMore ==> buf[..] == BufferThen(st.env, old(st.View()), old(buf[..]), datagrams)
  {
    hide NavState.Valid, NavState.View, Arrives, Serve, BufferLeft, BufferThen;
    replies, end := [], NoMore;
    var i := 0;
    ghost var goal := Serve(st.env, st.View(), buf[..], datagrams);
    ghost var left := BufferThen(st.env, st.View(), buf[..], datagrams);
    assert datagrams[0..] == datagrams;
    while i < |datagrams| && end == NoMore
      invariant 0 <= i <= |datagrams|
      invariant st.Valid() && fresh(st.Repr - old(st.Repr)) && buf !in st.Repr
      invariant if end != NoMore then Served(st.View(), replies, end) == goal
        else
          && FollowedBy(replies, Serve(st.env, st.View(), buf[..], datagrams[i..])) == goal
          && BufferThen(st.env, st.View(), buf[..], datagrams[i..]) == left
    {
      ServeMore(st.env, st.View(), buf[..], datagrams, i);
      label Before:
      var reply;
      reply, end := TakeTurn(st, buf, datagrams[i]);
      assert !fresh@Before(buf);
      replies, i := replies + [reply], i + 1;
    }
    if end == NoMore {
      ServeNone(st.env, st.View(), buf[..]);
      BufferThenNone(st.env, st.View(), buf[..]);
      assert datagrams[i..] == [];
    }
  }

  /** `loop`, with its own buffer. */
  method Loop(st: NavState, datagrams: seq<string>) returns (replies: seq<Option<Reply>>, end: LoopEnd)
    requires st.Valid()
    modifies st.Repr, st.heap
    ensures st.Valid() && fresh(st.Repr - old(st.Repr))
    ensures Served(st.View(), replies, end) == Serve(st.env, old(st.View()), CLEAR, datagrams)
  {
    hide NavState.Valid, NavState.View, Serve;
    var buf := new char[BUFFER_SIZE](_ => '\0');
    assert buf[..] == CLEAR;
    replies, end := LoopOn(st, buf, datagrams);
  }

  lemma FileIs(st: NavState)
    requires st.Valid()
    ensures st.file == st.View().file
  {
  }

  /** The program goes on: to wait for datagrams, or to its end. */
  predicate IsDefined(end: LoopEnd) {
    end == NoMore || end == PidOutOfRange
  }

  /**
    `main`: load the tags, serve, and free everything.  The teardown is that behind the
    loop, or in the signal handler that ends the wait for another datagram; behind
    undefined behaviour there is none.
   */
  method RunDaemon(env: Env, content: string, datagrams: seq<string>)
      returns (st: NavState, replies: seq<Option<Reply>>, end: LoopEnd)
    ensures fresh(st) && fresh(st.heap) && st.env == env
    ensures var s := Serve(env, Start(env, content), CLEAR, datagrams);
      replies == s.replies && end == s.end && st.file == s.state.file
    ensures end == NoMore || end == PidOutOfRange ==> st.heap.live == NOTHING
    ensures end == NoMore || end == PidOutOfRange ==>
      st.shells.nItems == 0 && st.shells.head == null && st.tags.nItems == 0 && st.tags.head == null
    ensures !IsDefined(end) ==> st.Valid() && st.View() == Serve(env, Start(env, content), CLEAR, datagrams).state
  {
    hide NavState.Valid, NavState.View;
    st := new NavState(env, content);
    ReadTagFile(st, content);
    replies, end := Loop(st, datagrams);
    FileIs(st);
    if IsDefined(end) {
      Deinit(st);
    }
  }
}
