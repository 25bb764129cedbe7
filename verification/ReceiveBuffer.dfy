/**
  The daemon's receive buffer: how a message is parsed out of it, and what parsing and
  handling leave in it.

  The parser is given twice: on the string at the front of the buffer (`ParseMessage`),
  and as the three `strtok_r` calls on the buffer itself (`Tokenised`).
 */
module ReceiveBuffer {
  import opened CString
  import opened Decimal
  import opened Daemon

  const BUFFER_SIZE: nat := 100

  /** `recv`: at most as many bytes as the buffer holds, over its front. */
  function Receive(buf: seq<char>, datagram: seq<char>): (r: seq<char>)
    ensures |r| == |buf|
  {
    if |datagram| <= |buf| then datagram + buf[|datagram|..] else datagram[..|buf|]
  }

  // The parser, on the string in the buffer

  datatype Parse =
    | Ignored
    | OutOfRange
    | Parsed(request: Request)

  function ParseMessage(s: string): Parse {
    var t := Skip(s, {' '});
    if t == "" then Ignored
    else
      var pid := PidOf(UpTo(t, {' '}));
      if pid.None? then OutOfRange
      else
        var u := Skip(After(t, {' '}), {' '});
        if u == "" then Ignored
        else
          var args := After(u, {' '});
          Parsed(Request(pid.value, UpTo(u, {' '}), if args == "" then None else Some(args)))
  }

  // The parser, on the buffer

  /** What a message's tokens are; the arguments are a pointer, or -1 for NULL. */
  datatype Tokens = Incomplete | BadPid | Tokens(pid: int, cmd: string, args: int)

  datatype Scan = Scan(tokens: Tokens, buf: seq<char>)

  predicate IsPointer(b: seq<char>, args: int) {
    args == -1 || Terminated(b, args)
  }

  /** The string a handler gets. */
  function ArgString(b: seq<char>, args: int): Option<string>
    requires IsPointer(b, args)
  {
    if args < 0 then None else Some(At(b, args))
  }

  /** The three `strtok_r` calls of the loop. */
  function Tokenised(b: seq<char>): (r: Scan)
    requires Terminated(b, 0)
    ensures |r.buf| == |b|
    ensures r.tokens.Tokens? ==> IsPointer(r.buf, r.tokens.args)
  {
    var p := Strtok(b, 0, {' '});
    if p.tok < 0 then Scan(Incomplete, p.buf)
    else
      var pid := PidOf(At(p.buf, p.tok));
      if pid.None? then Scan(BadPid, p.buf)
      else
        var c := Strtok(p.buf, p.save, {' '});
        if c.tok < 0 then Scan(Incomplete, c.buf)
        else
          var a := Strtok(c.buf, c.save, {});
          Scan(Tokens(pid.value, At(c.buf, c.tok), a.tok), a.buf)
  }

  predicate TokensOf(text: string, scan: Scan)
    requires scan.tokens.Tokens? ==> IsPointer(scan.buf, scan.tokens.args)
  {
    match scan.tokens
    case Incomplete => ParseMessage(text) == Ignored
    case BadPid => ParseMessage(text) == OutOfRange
    case Tokens(pid, cmd, args) => ParseMessage(text) == Parsed(Request(pid, cmd, ArgString(scan.buf, args)))
  }

  lemma OnlyCutChain(a: seq<char>, b: seq<char>, c: seq<char>, i: nat, j: nat)
    requires OnlyCut(a, b, i) && OnlyCut(b, c, j)
    ensures OnlyCut(a, c, 0)
  {
  }

  lemma TokenisedCuts(b: seq<char>)
    requires Terminated(b, 0)
    ensures OnlyCut(b, Tokenised(b).buf, 0)
  {
    hide Strtok, At, PidOf, OnlyCut;
    var p := Strtok(b, 0, {' '});
    StrtokCuts(b, 0, {' '});
    if p.tok >= 0 && PidOf(At(p.buf, p.tok)).Some? {
      var c := Strtok(p.buf, p.save, {' '});
      StrtokCuts(p.buf, p.save, {' '});
      OnlyCutChain(b, p.buf, c.buf, 0, p.save);
      if c.tok >= 0 {
        StrtokCuts(c.buf, c.save, {});
        OnlyCutChain(b, c.buf, Strtok(c.buf, c.save, {}).buf, 0, c.save);
      }
    }
  }

  /** The last call takes the rest of the string, if there is any. */
  lemma StrtokRest(b: seq<char>, start: nat)
    requires Terminated(b, start)
    ensures var t := Strtok(b, start, {});
      IsPointer(t.buf, t.tok) && ArgString(t.buf, t.tok) == if At(b, start) == "" then None else Some(At(b, start))
  {
    hide Strtok, Skip, UpTo, After, At;
    StrtokSplits(b, start, {});
    NoDelims(At(b, start));
  }

  lemma TokenisedTokens(b: seq<char>)
    requires Terminated(b, 0)
    ensures TokensOf(At(b, 0), Tokenised(b))
  {
    hide Strtok, Skip, UpTo, After, At, PidOf, ArgString, IsPointer;
    var p := Strtok(b, 0, {' '});
    StrtokSplits(b, 0, {' '});
    if p.tok >= 0 && PidOf(At(p.buf, p.tok)).Some? {
      var c := Strtok(p.buf, p.save, {' '});
      StrtokSplits(p.buf, p.save, {' '});
      if c.tok >= 0 {
        StrtokRest(c.buf, c.save);
      }
    }
  }

  /** Both parsers agree, and tokenising only cuts. */
  lemma TokenisedParses(b: seq<char>)
    requires Terminated(b, 0)
    ensures TokensOf(At(b, 0), Tokenised(b)) && OnlyCut(b, Tokenised(b).buf, 0)
  {
    hide *;
    TokenisedTokens(b);
    TokenisedCuts(b);
  }

  // The buffer after a message

  /** `add` cuts up to three words off its arguments, `get` and `delete` one, others none. */
  function CommandCut(s: State, c: Command, pid: int, b: seq<char>, args: int): (r: seq<char>)
    requires IsPointer(b, args)
    ensures OnlyCut(b, r, 0)
  {
    if ShellIndex(s.shells, pid) == |s.shells| || args < 0 then b
    else if c == Add then CutWords(b, args, 3)
    else if c == Get || c == Delete then CutWords(b, args, 1)
    else b
  }

  /** What parsing and handling a message leave in the buffer. */
  function BufferAfter(s: State, b: seq<char>): (r: seq<char>)
    requires Terminated(b, 0)
    ensures OnlyCut(b, r, 0)
  {
    TokenisedParses(b);
    var scan := Tokenised(b);
    match scan.tokens
    case Tokens(pid, cmd, args) =>
      if Dispatch(cmd).None? then scan.buf else CommandCut(s, Dispatch(cmd).value, pid, scan.buf, args)
    case _ => scan.buf
  }
}
