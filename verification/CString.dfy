/**
  C strings and the library calls that cut them up.

  A `char` stands for one byte.  A pointer into a buffer denotes the characters
  from there to the first NUL (`At`).  `strtok_r` is modelled twice: on values
  (`Skip`, `UpTo`, `After`) and in place on an array (`StrtokR`), as the daemon
  uses it.
 */
module CString {
  datatype Option<+T> = None | Some(value: T)

  /** Where the string that starts at `b[i]` ends: the first NUL from `i` on. */
  function End(b: seq<char>, i: nat): (e: nat)
    requires i <= |b|
    ensures i <= e <= |b|
    ensures forall k | i <= k < e :: b[k] != '\0'
    ensures e < |b| ==> b[e] == '\0'
    decreases |b| - i
  {
    if i == |b| || b[i] == '\0' then i else End(b, i + 1)
  }

  /** The string that a pointer to `b[i]` denotes. */
  function At(b: seq<char>, i: nat): string
    requires i <= |b|
  {
    b[i..End(b, i)]
  }

  /** `strspn`: how many leading characters of `s` are delimiters. */
  function Span(s: string, delims: set<char>): (n: nat)
    ensures n <= |s|
    ensures forall k | 0 <= k < n :: s[k] in delims
    ensures n < |s| ==> s[n] !in delims
  {
    if s != "" && s[0] in delims then 1 + Span(s[1..], delims) else 0
  }

  /** `strcspn`: how many leading characters of `s` are not delimiters. */
  function CSpan(s: string, delims: set<char>): (n: nat)
    ensures n <= |s|
    ensures forall k | 0 <= k < n :: s[k] !in delims
    ensures n < |s| ==> s[n] in delims
  {
    if s == "" || s[0] in delims then 0 else 1 + CSpan(s[1..], delims)
  }

  /** `s` without its leading delimiters. */
  function Skip(s: string, delims: set<char>): string {
    s[Span(s, delims)..]
  }

  /** The longest prefix of `s` that holds no delimiter. */
  function UpTo(s: string, delims: set<char>): string {
    s[..CSpan(s, delims)]
  }

  /** What follows that prefix and the delimiter that ends it. */
  function After(s: string, delims: set<char>): string {
    var n := CSpan(s, delims);
    if n < |s| then s[n + 1..] else ""
  }

  /** `strndup(s, get_trailing_whitespace(s))`: up to the first space or newline. */
  function Trim(s: string): string {
    UpTo(s, {' ', '\n'})
  }

  /** No space and no newline. */
  predicate Plain(s: string) {
    forall k | 0 <= k < |s| :: s[k] != ' ' && s[k] != '\n'
  }

  predicate SpaceFree(s: string) {
    forall k | 0 <= k < |s| :: s[k] != ' '
  }

  function Concat(ss: seq<string>): string {
    if ss == [] then "" else ss[0] + Concat(ss[1..])
  }

  /** The tokens that repeated `strtok_r(.., " ", ..)` calls return. */
  function Words(s: string): seq<string>
    decreases |s|
  {
    var t := Skip(s, {' '});
    if t == "" then [] else [UpTo(t, {' '})] + Words(After(t, {' '}))
  }

  /** The first position that holds a delimiter determines `CSpan`. */
  lemma CSpanIs(s: string, delims: set<char>, n: nat)
    requires n <= |s|
    requires forall k | 0 <= k < n :: s[k] !in delims
    requires n < |s| ==> s[n] in delims
    ensures CSpan(s, delims) == n
  {
  }

  /** The first position that holds no delimiter determines `Span`. */
  lemma SpanIs(s: string, delims: set<char>, n: nat)
    requires n <= |s|
    requires forall k | 0 <= k < n :: s[k] in delims
    requires n < |s| ==> s[n] !in delims
    ensures Span(s, delims) == n
  {
  }

  /** Without delimiters the token is the whole rest. */
  lemma NoDelims(s: string)
    ensures Skip(s, {}) == s && UpTo(s, {}) == s
  {
    SpanIs(s, {}, 0);
    CSpanIs(s, {}, |s|);
  }

  /** The position of the first NUL determines where a string ends. */
  lemma EndIs(b: seq<char>, i: nat, j: nat)
    requires i <= j <= |b|
    requires forall k | i <= k < j :: b[k] != '\0'
    requires j < |b| ==> b[j] == '\0'
    ensures End(b, i) == j
  {
  }

  /** Trimming is exact: it keeps precisely the text without space or newline. */
  lemma TrimIsPlain(s: string)
    ensures Plain(Trim(s)) && Trim(s) <= s
    ensures Trim(s) == s <==> Plain(s)
  {
    var n := CSpan(s, {' ', '\n'});
    forall k | 0 <= k < n ensures s[k] != ' ' && s[k] != '\n' {
      assert s[k] !in {' ', '\n'};
    }
    if Plain(s) {
      CSpanIs(s, {' ', '\n'}, |s|);
      assert s[..|s|] == s;
    }
  }

  /** `t` is `s` up to its first space or newline. */
  predicate CutAtBlank(s: string, t: string) {
    t <= s && Plain(t) && (|t| < |s| ==> s[|t|] == ' ' || s[|t|] == '\n')
  }

  /** Which is what trimming gives, and nothing else is. */
  lemma TrimIff(s: string, t: string)
    ensures Trim(s) == t <==> CutAtBlank(s, t)
  {
    TrimIsPlain(s);
    if CutAtBlank(s, t) {
      assert forall k | 0 <= k < |t| :: s[k] == t[k];
      CSpanIs(s, {' ', '\n'}, |t|);
    }
  }

  /** One token: a space ends it, and an empty one is skipped. */
  lemma WordsCons(w: string, t: string)
    requires SpaceFree(w)
    ensures Words(w + " " + t) == (if w == "" then [] else [w]) + Words(t)
  {
    var s := w + " " + t;
    if w == "" {
      assert s[0] == ' ' && s[1..] == t;
      assert Span(s, {' '}) == 1 + Span(t, {' '});
      assert Skip(s, {' '}) == Skip(t, {' '});
    } else {
      assert forall k | 0 <= k < |w| :: s[k] == w[k];
      assert s[|w|] == ' ';
      SpanIs(s, {' '}, 0);
      assert Skip(s, {' '}) == s;
      CSpanIs(s, {' '}, |w|);
      assert UpTo(s, {' '}) == w;
      assert After(s, {' '}) == t;
    }
  }

  lemma WordsSingle(w: string)
    requires SpaceFree(w)
    ensures Words(w) == if w == "" then [] else [w]
  {
    if w != "" {
      SpanIs(w, {' '}, 0);
      assert Skip(w, {' '}) == w;
      CSpanIs(w, {' '}, |w|);
      assert UpTo(w, {' '}) == w;
    }
  }

  lemma Associative<T>(a: seq<T>, b: seq<T>, c: seq<T>)
    ensures a + (b + c) == a + b + c
  {
  }

  lemma JoinRest(w: string, rest: string, t: string)
    ensures w + " " + rest + t == w + " " + (rest + t)
  {
  }

  lemma SplitFirst(w: string, rest: string, t: string)
    requires SpaceFree(w) && Words(rest + t) == Words(rest) + Words(t)
    ensures Words(w + " " + rest + t) == Words(w + " " + rest) + Words(t)
  {
    hide *;
    JoinRest(w, rest, t);
    WordsCons(w, rest + t);
    WordsCons(w, rest);
    Associative(if w == "" then [] else [w], Words(rest), Words(t));
  }

  lemma NoWords(t: string)
    ensures Words("" + t) == Words("") + Words(t)
  {
    assert "" + t == t;
  }

  /** Text that ends in a space is tokenised independently of what follows it. */
  lemma {:induction false} WordsSplit(s: string, t: string)
    requires s != "" && s[|s| - 1] == ' '
    ensures Words(s + t) == Words(s) + Words(t)
    decreases |s|
  {
    var n := CSpan(s, {' '});
    assert n < |s|;
    var w, rest := s[..n], s[n + 1..];
    assert s == w + " " + rest;
    assert SpaceFree(w);
    if rest == "" {
      NoWords(t);
    } else {
      WordsSplit(rest, t);
    }
    SplitFirst(w, rest, t);
  }

  /** Spaces alone hold no token, and nothing else does. */
  lemma {:induction false} NoWordsIffBlank(s: string)
    ensures Words(s) == [] <==> forall k | 0 <= k < |s| :: s[k] == ' '
  {
    var n := Span(s, {' '});
    assert forall k | 0 <= k < n :: s[k] in {' '};
  }

  lemma FirstWord(s: string)
    requires Skip(s, {' '}) != ""
    ensures var w := UpTo(Skip(s, {' '}), {' '}); w != "" && SpaceFree(w)
  {
    var t := Skip(s, {' '});
    assert t[0] == s[Span(s, {' '})];
    assert CSpan(t, {' '}) > 0;
  }

  predicate AreWords(ws: seq<string>) {
    forall i | 0 <= i < |ws| :: ws[i] != "" && SpaceFree(ws[i])
  }

  lemma RestIsShorter(s: string)
    requires Skip(s, {' '}) != ""
    ensures |After(Skip(s, {' '}), {' '})| < |s|
  {
  }

  /** Every token is non-empty and holds no space. */
  lemma {:induction false} WordsAreWords(s: string)
    ensures AreWords(Words(s))
    decreases |s|
  {
    hide Skip, UpTo, After, SpaceFree;
    var t := Skip(s, {' '});
    if t != "" {
      FirstWord(s);
      RestIsShorter(s);
      WordsAreWords(After(t, {' '}));
    }
  }

  // Pointers into a buffer

  /** `i` points into `b`, and its string ends there. */
  predicate Terminated(b: seq<char>, i: int) {
    0 <= i < |b| && End(b, i) < |b|
  }

  lemma TerminatedBehind(b: seq<char>, i: nat, j: nat)
    requires Terminated(b, i) && i <= j <= End(b, i)
    ensures Terminated(b, j) && End(b, j) == End(b, i) && At(b, j) == At(b, i)[j - i..]
  {
    EndIs(b, j, End(b, i));
  }

  /** A NUL in the last byte terminates every string. */
  lemma TerminatedByLast(b: seq<char>, i: nat)
    requires i < |b| && b[|b| - 1] == '\0'
    ensures Terminated(b, i)
  {
    assert forall k | i <= k < End(b, i) :: b[k] != '\0';
  }

  /** `after` is `before` with some bytes from `lo` on replaced by NUL. */
  predicate OnlyCut(before: seq<char>, after: seq<char>, lo: nat) {
    && |before| == |after|
    && forall k | 0 <= k < |after| :: after[k] == before[k] || (lo <= k && after[k] == '\0')
  }

  /**
    What one `strtok_r` call leaves: the buffer, the token as a pointer into it or -1
    for NULL, and where the next call resumes.
   */
  datatype Token = Token(buf: seq<char>, tok: int, save: nat)

  /** A cut within the string ends what stands before it and leaves what follows. */
  lemma CutTerminated(b: seq<char>, start: nat, i: nat, j: nat)
    requires Terminated(b, start) && start <= i <= j <= End(b, start)
    ensures var b' := b[j := '\0'];
      && Terminated(b', i) && At(b', i) == b[i..j]
      && if b[j] == '\0' then Terminated(b', j) && At(b', j) == ""
         else Terminated(b', j + 1) && At(b', j + 1) == b[j + 1..End(b, start)]
  {
    EndIs(b[j := '\0'], i, j);
    EndIs(b[j := '\0'], j, j);
    if b[j] != '\0' {
      EndIs(b[j := '\0'], j + 1, End(b, start));
    }
  }

  /** `strtok_r` on the buffer `b`, from the pointer `start`. */
  function Strtok(b: seq<char>, start: nat, delims: set<char>): (t: Token)
    requires Terminated(b, start)
    ensures |t.buf| == |b| && start <= t.save && -1 <= t.tok && Terminated(t.buf, t.save)
    ensures t.tok >= 0 ==> start <= t.tok <= t.save && Terminated(t.buf, t.tok)
  {
    var s := At(b, start);
    var n := Span(s, delims);
    if n == |s| then
      TerminatedBehind(b, start, start + n);
      Token(b, -1, start + n)
    else
      var j := start + n + CSpan(s[n..], delims);
      CutTerminated(b, start, start + n, j);
      Token(b[j := '\0'], start + n, if b[j] == '\0' then j else j + 1)
  }

  /** No token, and nothing cut, exactly when there are delimiters only. */
  lemma NoToken(b: seq<char>, start: nat, delims: set<char>)
    requires Terminated(b, start)
    ensures var s := At(b, start); Span(s, delims) == |s| <==> Skip(s, delims) == ""
  {
  }

  /** At most one byte is written: a delimiter, or the NUL that was there. */
  lemma StrtokCuts(b: seq<char>, start: nat, delims: set<char>)
    requires Terminated(b, start)
    ensures var t := Strtok(b, start, delims);
      && OnlyCut(b, t.buf, start)
      && (t.buf == b || exists j | start <= j < |b| :: b[j] in delims && t.buf == b[j := '\0'])
  {
    var s, e := At(b, start), End(b, start);
    var n := Span(s, delims);
    if n < |s| {
      var m := CSpan(s[n..], delims);
      var j := start + n + m;
      if j == e {
        assert b[j := '\0'] == b;
      } else {
        assert b[j] == s[n..][m];
      }
    }
  }

  /** What a cut behind `m` bytes makes of the string from its `n`th byte on. */
  lemma CutSplits(b: seq<char>, start: nat, n: nat, m: nat)
    requires Terminated(b, start) && n + m <= |At(b, start)|
    ensures start + n + m < |b|
    ensures var s := At(b, start)[n..]; var j := start + n + m;
      && At(b[j := '\0'], start + n) == s[..m]
      && At(b[j := '\0'], if b[j] == '\0' then j else j + 1) == if m < |s| then s[m + 1..] else ""
  {
    var e, j := End(b, start), start + n + m;
    CutTerminated(b, start, start + n, j);
    assert b[j] == '\0' <==> j == e;
    assert At(b, start)[n..][..m] == b[start + n..j];
    if j < e {
      assert At(b, start)[n..][m + 1..] == b[j + 1..e];
    }
  }

  lemma AtLength(b: seq<char>, start: nat)
    requires Terminated(b, start)
    ensures End(b, start) == start + |At(b, start)| < |b|
  {
  }

  lemma AtEnd(b: seq<char>, start: nat)
    requires Terminated(b, start)
    ensures start + |At(b, start)| < |b| && b[start + |At(b, start)|] == '\0'
  {
  }

  /** One call in terms of the two spans it scans. */
  lemma StrtokSpans(b: seq<char>, start: nat, delims: set<char>)
    requires Terminated(b, start)
    ensures var s := At(b, start); var n := Span(s, delims);
      if n == |s| then Strtok(b, start, delims) == Token(b, -1, start + n)
      else
        var j := start + n + CSpan(s[n..], delims);
        j < |b| && Strtok(b, start, delims) == Token(b[j := '\0'], start + n, if b[j] == '\0' then j else j + 1)
  {
  }

  lemma SkipSpans(s: string, delims: set<char>)
    ensures var t := s[Span(s, delims)..]; var m := CSpan(t, delims);
      && Skip(s, delims) == t && UpTo(t, delims) == t[..m]
      && After(t, delims) == if m < |t| then t[m + 1..] else ""
  {
  }

  /** The token is the string up to the next delimiter, and the next call sees what follows. */
  lemma StrtokSplits(b: seq<char>, start: nat, delims: set<char>)
    requires Terminated(b, start)
    ensures var t := Strtok(b, start, delims); var s := Skip(At(b, start), delims);
      if s == "" then t.tok == -1 && At(t.buf, t.save) == "" && t.buf == b
      else t.tok >= 0 && At(t.buf, t.tok) == UpTo(s, delims) && At(t.buf, t.save) == After(s, delims)
  {
    hide Strtok, Span, CSpan, At, End, Skip, UpTo, After;
    var s := At(b, start);
    var n := Span(s, delims);
    NoToken(b, start, delims);
    StrtokSpans(b, start, delims);
    if n == |s| {
      CutSplits(b, start, n, 0);
      assert b[start + n := '\0'] == b by { AtEnd(b, start); }
    } else {
      CutSplits(b, start, n, CSpan(s[n..], delims));
      SkipSpans(s, delims);
    }
  }

  /** The same, in the steps of a scan for each end of the token. */
  lemma StrtokSteps(b: seq<char>, start: nat, delims: set<char>)
    requires Terminated(b, start)
    ensures var i := start + Span(At(b, start), delims);
      && Terminated(b, i)
      && if i == End(b, start) then Strtok(b, start, delims) == Token(b, -1, i)
         else
           var j := i + CSpan(At(b, i), delims);
           j < |b| && Strtok(b, start, delims) == Token(b[j := '\0'], i, if b[j] == '\0' then j else j + 1)
  {
    hide Strtok, Span, CSpan, At, End;
    var n := Span(At(b, start), delims);
    AtLength(b, start);
    TerminatedBehind(b, start, start + n);
    assert At(b, start + n) == At(b, start)[n..];
    StrtokSpans(b, start, delims);
  }

  /** The buffer after at most `n` calls for the next word. */
  function CutWords(b: seq<char>, start: nat, n: nat): (r: seq<char>)
    requires Terminated(b, start)
    ensures OnlyCut(b, r, 0)
    decreases n
  {
    if n == 0 then b
    else
      var t := Strtok(b, start, {' '});
      StrtokCuts(b, start, {' '});
      if t.tok < 0 then t.buf else CutWords(t.buf, t.save, n - 1)
  }

  // In place

  /** `strndup` after `get_trailing_whitespace`, as a scan. */
  method CopyTrimmed(b: array<char>, start: nat) returns (r: string)
    requires Terminated(b[..], start)
    ensures r == Trim(At(b[..], start))
  {
    var i := start;
    while b[i] != '\0' && b[i] != '\n' && b[i] != ' '
      invariant start <= i <= End(b[..], start)
      invariant forall k | start <= k < i :: b[k] != '\0' && b[k] != '\n' && b[k] != ' '
      decreases b.Length - i
    {
      i := i + 1;
    }
    r := b[start..i];
    ghost var s := At(b[..], start);
    assert forall k | 0 <= k < i - start :: s[k] == b[start + k];
    assert i < End(b[..], start) ==> s[i - start] == b[i];
    CSpanIs(s, {' ', '\n'}, i - start);
    assert r == s[..i - start];
  }

  /** `strspn` on the buffer, as an index. */
  method ScanOver(b: array<char>, start: nat, delims: set<char>) returns (i: nat)
    requires Terminated(b[..], start)
    ensures i == start + Span(At(b[..], start), delims)
    ensures b[i] == '\0' <==> i == End(b[..], start)
  {
    ghost var s := At(b[..], start);
    i := start;
    while b[i] != '\0' && b[i] in delims
      invariant start <= i <= End(b[..], start)
      invariant forall k | start <= k < i :: b[k] in delims
      decreases b.Length - i
    {
      i := i + 1;
    }
    assert forall k | 0 <= k < i - start :: s[k] == b[start + k];
    assert i < End(b[..], start) ==> s[i - start] == b[i];
    SpanIs(s, delims, i - start);
  }

  /** `strcspn` on the buffer, as an index. */
  method ScanTo(b: array<char>, start: nat, delims: set<char>) returns (j: nat)
    requires Terminated(b[..], start)
    ensures j == start + CSpan(At(b[..], start), delims)
    ensures b[j] == '\0' <==> j == End(b[..], start)
  {
    ghost var s := At(b[..], start);
    j := start;
    while b[j] != '\0' && b[j] !in delims
      invariant start <= j <= End(b[..], start)
      invariant forall k | start <= k < j :: b[k] !in delims
      decreases b.Length - j
    {
      j := j + 1;
    }
    assert forall k | 0 <= k < j - start :: s[k] == b[start + k];
    assert j < End(b[..], start) ==> s[j - start] == b[j];
    CSpanIs(s, delims, j - start);
  }

  /**
    `strtok_r` on the buffer.  The only byte written is the delimiter that ends the
    token, which becomes NUL.
   */
  method StrtokR(b: array<char>, start: nat, delims: set<char>) returns (tok: int, save: nat)
    requires Terminated(b[..], start)
    modifies b
    ensures Token(b[..], tok, save) == Strtok(old(b[..]), start, delims)
    ensures b[..] == old(b[..])
      || exists j | start <= j < b.Length :: old(b[j]) in delims && b[..] == old(b[..])[j := '\0']
    ensures var t := Skip(At(old(b[..]), start), delims);
      if t == "" then tok == -1 && At(b[..], save) == "" && b[..] == old(b[..])
      else tok >= 0 && At(b[..], tok) == UpTo(t, delims) && At(b[..], save) == After(t, delims)
  {
    hide Strtok, Span, CSpan, At, End, Skip, UpTo, After;
    ghost var before := b[..];
    StrtokSteps(before, start, delims);
    StrtokCuts(before, start, delims);
    StrtokSplits(before, start, delims);
    var i := ScanOver(b, start, delims);
    if b[i] == '\0' {
      return -1, i;
    }
    assert b[..] == before;
    var j := ScanTo(b, i, delims);
    tok, save := i, if b[j] == '\0' then j else j + 1;
    b[j] := '\0';
    assert b[..] == before[j := '\0'];
    assert Token(b[..], tok, save) == Strtok(before, start, delims);
  }

  /** `sprintf(buf + offset, "%s", s)`. */
  method Sprintf(buf: array<char>, offset: nat, s: string) returns (end: nat)
    requires offset + |s| < buf.Length
    modifies buf
    ensures end == offset + |s|
    ensures buf[..end] == old(buf[..offset]) + s && buf[end] == '\0'
  {
    var k := 0;
    while k < |s|
      invariant 0 <= k <= |s|
      invariant buf[..offset + k] == old(buf[..offset]) + s[..k]
    {
      buf[offset + k] := s[k];
      k := k + 1;
    }
    assert s[..k] == s;
    end := offset + k;
    buf[end] := '\0';
  }

  /** The buffer holds `text`, cut short where it does not fit. */
  predicate Holds(buf: seq<char>, text: string) {
    if |text| < |buf| then buf[..|text|] == text && buf[|text|] == '\0'
    else buf != [] && buf[..|buf| - 1] == text[..|buf| - 1] && buf[|buf| - 1] == '\0'
  }

  /** `snprintf(buf + offset, size, "%s", s)`, where `size` is what is left of the buffer. */
  method Snprintf(buf: array<char>, offset: nat, s: string, ghost text: string) returns (n: nat)
    requires Holds(buf[..], text) && offset == |text| <= buf.Length
    modifies buf
    ensures Holds(buf[..], text + s) && n == |s|
  {
    if offset < buf.Length {
      var shown := if offset + |s| < buf.Length then s else s[..buf.Length - 1 - offset];
      var end := Sprintf(buf, offset, shown);
      assert text + shown <= text + s;
    } else {
      assert (text + s)[..buf.Length - 1] == text[..buf.Length - 1];
    }
    n := |s|;
  }
}
