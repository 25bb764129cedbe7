/**
  Decimal numbers on the wire: `strtol` turns the first word of a message into a
  pid, `%d` turns it back into the name of the socket that replies are sent to.
 */
module Decimal {
  import opened CString

  const LONG_MAX: int := 0x7FFF_FFFF_FFFF_FFFF
  const LONG_MIN: int := -0x8000_0000_0000_0000
  const INT_MAX: int := 0x7FFF_FFFF
  const INT_MIN: int := -0x8000_0000

  /** `isspace` in the C locale. */
  const WHITESPACE: set<char> := {' ', '\t', '\n', '\U{000B}', '\U{000C}', '\r'}

  predicate IsDigit(c: char) {
    '0' <= c <= '9'
  }

  predicate AllDigits(s: string) {
    forall k | 0 <= k < |s| :: IsDigit(s[k])
  }

  function DigitValue(c: char): nat
    requires IsDigit(c)
  {
    (c - '0') as int
  }

  function DigitChar(d: nat): (c: char)
    requires d < 10
    ensures IsDigit(c) && DigitValue(c) == d
  {
    '0' + d as char
  }

  /** The leading digits of `s`. */
  function DigitRun(s: string): (r: string)
    ensures r <= s && AllDigits(r)
    ensures |r| < |s| ==> !IsDigit(s[|r|])
  {
    if s != "" && IsDigit(s[0]) then
      var r := DigitRun(s[1..]);
      assert s == [s[0]] + s[1..];
      [s[0]] + r
    else ""
  }

  function Value(ds: string): nat
    requires AllDigits(ds)
  {
    if ds == "" then 0 else 10 * Value(ds[..|ds| - 1]) + DigitValue(ds[|ds| - 1])
  }

  /** `%d` of a non-negative number. */
  function Dec(n: nat): (s: string)
    ensures s != "" && AllDigits(s)
  {
    if n < 10 then [DigitChar(n)] else Dec(n / 10) + [DigitChar(n % 10)]
  }

  /** `%d`. */
  function PrintInt(n: int): string {
    if n < 0 then "-" + Dec(-n) else Dec(n)
  }

  /** The value of an optional sign and a run of digits; 0 when there is no digit. */
  function SignedValue(t: string): int {
    if t != "" && t[0] == '-' then 0 - Value(DigitRun(t[1..]))
    else if t != "" && t[0] == '+' then Value(DigitRun(t[1..]))
    else Value(DigitRun(t))
  }

  /** `strtol(s, NULL, 10)` on a 64-bit `long`; `None` stands for `ERANGE`. */
  function Strtol(s: string): Option<int> {
    var x := SignedValue(Skip(s, WHITESPACE));
    if LONG_MIN <= x <= LONG_MAX then Some(x) else None
  }

  /** The conversion from `long` to a 32-bit two's complement `int`. */
  function ToInt(x: int): (r: int)
    ensures INT_MIN <= r <= INT_MAX
  {
    (x - INT_MIN) % 0x1_0000_0000 + INT_MIN
  }

  /** The pid that the daemon reads from the first word of a message. */
  function PidOf(s: string): Option<int> {
    match Strtol(s)
    case Some(x) => Some(ToInt(x))
    case None => None
  }

  /** Digits without a superfluous leading zero. */
  predicate CanonicalDigits(ds: string) {
    ds != "" && AllDigits(ds) && (|ds| > 1 ==> ds[0] != '0')
  }

  /** The decimal notation of an `int`, as a condition on the characters. */
  predicate CanonicalInt(s: string) {
    if s != "" && s[0] == '-'
    then CanonicalDigits(s[1..]) && s[1] != '0' && Value(s[1..]) <= -INT_MIN
    else CanonicalDigits(s) && Value(s) <= INT_MAX
  }

  lemma {:induction false} ValueOfDec(n: nat)
    ensures Value(Dec(n)) == n && CanonicalDigits(Dec(n))
    ensures n > 0 ==> Dec(n)[0] != '0'
  {
    if n >= 10 {
      ValueOfDec(n / 10);
      var s := Dec(n);
      assert s[..|s| - 1] == Dec(n / 10);
    }
  }

  lemma TenTimes(n: nat, d: nat)
    requires d < 10
    ensures (10 * n + d) / 10 == n && (10 * n + d) % 10 == d
  {
  }

  lemma {:induction false} DecOfValue(ds: string)
    requires CanonicalDigits(ds)
    ensures Dec(Value(ds)) == ds
    ensures ds[0] != '0' ==> Value(ds) > 0
  {
    if |ds| > 1 {
      DecOfValue(ds[..|ds| - 1]);
      TenTimes(Value(ds[..|ds| - 1]), DigitValue(ds[|ds| - 1]));
    } else {
      assert ds[..0] == "";
      assert DigitChar(DigitValue(ds[0])) == ds[0];
    }
  }

  /** Printing never lengthens a run of digits. */
  lemma {:induction false} DecNoLonger(ds: string)
    requires ds != "" && AllDigits(ds)
    ensures |Dec(Value(ds))| <= |ds|
  {
    if Value(ds) >= 10 {
      assert Value(ds) / 10 == Value(ds[..|ds| - 1]);
      DecNoLonger(ds[..|ds| - 1]);
    }
  }

  function Pow10(k: nat): nat {
    if k == 0 then 1 else 10 * Pow10(k - 1)
  }

  lemma {:induction false} ValueBound(ds: string)
    requires AllDigits(ds)
    ensures Value(ds) < Pow10(|ds|)
  {
    if ds != "" {
      ValueBound(ds[..|ds| - 1]);
    }
  }

  lemma {:induction false} Pow10Mono(j: nat, k: nat)
    requires j <= k
    ensures Pow10(j) <= Pow10(k)
  {
    if j < k { Pow10Mono(j, k - 1); }
  }

  lemma DigitRunAll(s: string)
    requires AllDigits(s)
    ensures DigitRun(s) == s
  {
    var r := DigitRun(s);
    assert |r| == |s|;
  }

  lemma SkipNone(s: string)
    requires s != "" && s[0] !in WHITESPACE
    ensures Skip(s, WHITESPACE) == s
  {
    SpanIs(s, WHITESPACE, 0);
  }

  lemma SignedValueOfPrint(n: int)
    ensures SignedValue(PrintInt(n)) == n
    ensures PrintInt(n) != "" && PrintInt(n)[0] !in WHITESPACE
  {
    var d: int := if n < 0 then 0 - n else n;
    var s := Dec(d);
    ValueOfDec(d);
    DigitRunAll(s);
    if n < 0 {
      assert ("-" + s)[1..] == s;
    } else {
      assert IsDigit(s[0]);
    }
  }

  /** Every `int` survives being printed and parsed. */
  lemma ParsePrint(n: int)
    requires INT_MIN <= n <= INT_MAX
    ensures PidOf(PrintInt(n)) == Some(n)
  {
    hide SignedValue, PrintInt, Skip;
    SignedValueOfPrint(n);
    SkipNone(PrintInt(n));
  }

  /** The canonical words are those that some `int` prints as. */
  lemma CanonicalIff(s: string)
    ensures CanonicalInt(s) <==> exists n | INT_MIN <= n <= INT_MAX :: PrintInt(n) == s
  {
    if CanonicalInt(s) {
      if s[0] == '-' {
        var ds := s[1..];
        DecOfValue(ds);
        assert s == "-" + ds;
        assert PrintInt(0 - Value(ds)) == s;
      } else {
        DecOfValue(s);
        assert PrintInt(Value(s)) == s;
      }
    }
    forall n | INT_MIN <= n <= INT_MAX && PrintInt(n) == s ensures CanonicalInt(s) {
      if n < 0 {
        ValueOfDec(-n);
        assert s[1..] == Dec(-n);
      } else {
        ValueOfDec(n);
        assert IsDigit(s[0]);
      }
    }
  }

  /** A word is what its pid prints as exactly when it is canonical. */
  lemma PrintParseIff(s: string)
    ensures (PidOf(s).Some? && PrintInt(PidOf(s).value) == s) <==> CanonicalInt(s)
  {
    CanonicalIff(s);
    forall n | INT_MIN <= n <= INT_MAX && PrintInt(n) == s ensures PidOf(s) == Some(n) {
      ParsePrint(n);
    }
  }

  /** A digit's value, and how one more digit changes the value. */
  lemma ValueSnoc(ds: string, c: char)
    requires AllDigits(ds) && IsDigit(c)
    ensures Value("") == 0 && AllDigits(ds + [c]) && Value(ds + [c]) == 10 * Value(ds) + (c as int - '0' as int)
  {
    assert (ds + [c])[..|ds|] == ds;
  }

  lemma SkipBlanks(blank: string, t: string)
    requires forall k | 0 <= k < |blank| :: blank[k] in WHITESPACE
    requires t != "" ==> t[0] !in WHITESPACE
    ensures Skip(blank + t, WHITESPACE) == t
  {
    var s := blank + t;
    assert forall k | 0 <= k < |blank| :: s[k] == blank[k];
    if t != "" { assert s[|blank|] == t[0]; }
    SpanIs(s, WHITESPACE, |blank|);
  }

  lemma DigitRunIs(s: string, n: nat)
    requires n <= |s| && AllDigits(s[..n]) && (n < |s| ==> !IsDigit(s[n]))
    ensures DigitRun(s) == s[..n]
  {
    if n > 0 {
      assert forall k | 0 <= k < n :: s[k] == s[..n][k];
      assert s[1..][..n - 1] == s[..n][1..];
      DigitRunIs(s[1..], n - 1);
      assert [s[0]] + s[1..][..n - 1] == s[..n];
    }
  }

  lemma RunOf(ds: string, junk: string)
    requires AllDigits(ds) && (junk != "" ==> !IsDigit(junk[0]))
    ensures DigitRun(ds + junk) == ds
  {
    assert (ds + junk)[..|ds|] == ds;
    DigitRunIs(ds + junk, |ds|);
  }

  /** White space, a sign or none, digits, and something that goes on without a digit. */
  predicate Numeral(s: string, blank: string, sign: string, ds: string, junk: string) {
    && s == blank + (sign + (ds + junk))
    && (forall k | 0 <= k < |blank| :: blank[k] in {' ', '\t', '\n', '\U{000B}', '\U{000C}', '\r'})
    && (sign == "" || sign == "-" || sign == "+")
    && AllDigits(ds)
    && (junk != "" ==> !IsDigit(junk[0]))
    && (sign == "" && ds == "" && junk != "" ==> junk[0] !in WHITESPACE && junk[0] != '-' && junk[0] != '+')
  }

  lemma Unsigned(t: string)
    requires t != "" ==> t[0] != '-' && t[0] != '+'
    ensures SignedValue(t) == Value(DigitRun(t))
  {
  }

  lemma SignedBy(c: char, u: string)
    requires c == '-' || c == '+'
    ensures SignedValue([c] + u) == if c == '-' then 0 - Value(DigitRun(u)) else Value(DigitRun(u))
  {
    assert ([c] + u)[1..] == u;
  }

  /** Without a sign of its own the rest does not start like one. */
  lemma SignedOf(sign: string, ds: string, junk: string)
    requires sign == "" || sign == "-" || sign == "+"
    requires AllDigits(ds) && (junk != "" ==> !IsDigit(junk[0]))
    requires sign == "" && ds == "" && junk != "" ==> junk[0] != '-' && junk[0] != '+'
    ensures SignedValue(sign + (ds + junk)) == if sign == "-" then 0 - Value(ds) else Value(ds)
  {
    hide DigitRun, Value, SignedValue;
    RunOf(ds, junk);
    var u := ds + junk;
    if sign == "" {
      assert sign + u == u;
      assert u != "" ==> u[0] == if ds != "" then ds[0] else junk[0];
      Unsigned(u);
    } else {
      SignedBy(sign[0], u);
    }
  }

  lemma SignedIs(s: string, blank: string, sign: string, ds: string, junk: string)
    requires Numeral(s, blank, sign, ds, junk)
    ensures SignedValue(Skip(s, WHITESPACE)) == if sign == "-" then 0 - Value(ds) else Value(ds)
  {
    hide SignedValue, Value, Skip, DigitRun;
    var t := sign + (ds + junk);
    assert t != "" ==> t[0] == if sign != "" then sign[0] else if ds != "" then ds[0] else junk[0];
    SkipBlanks(blank, t);
    SignedOf(sign, ds, junk);
  }

  /**
    What pid a word is, for every word: the number that it starts with behind white space,
    0 if that is none; beyond 64 bits there is no pid, and otherwise it is the number modulo
    2^32 as an `int`.
   */
  lemma PidSpecification(s: string, blank: string, sign: string, ds: string, junk: string)
    requires Numeral(s, blank, sign, ds, junk)
    ensures var x: int := if sign == "-" then 0 - Value(ds) else Value(ds); var pid := PidOf(s);
      && (pid.Some? <==> -9223372036854775808 <= x <= 9223372036854775807)
      && (pid.Some? ==> -2147483648 <= pid.value <= 2147483647 && (x - pid.value) % 4294967296 == 0)
  {
    hide SignedValue, Value, Skip, Numeral;
    SignedIs(s, blank, sign, ds, junk);
  }

  lemma Parts(s: string, n: nat)
    requires n <= |s|
    ensures s == s[..n] + s[n..]
  {
  }

  lemma RunParts(u: string) returns (ds: string, junk: string)
    ensures u == ds + junk && AllDigits(ds) && (junk != "" ==> !IsDigit(junk[0]))
    ensures ds == "" ==> junk == u
  {
    ds := DigitRun(u);
    junk := u[|ds|..];
    hide DigitRun;
    Parts(u, |ds|);
  }

  lemma SignedParts(t: string) returns (sign: string, ds: string, junk: string)
    ensures t == sign + (ds + junk) && (sign == "" || sign == "-" || sign == "+")
    ensures AllDigits(ds) && (junk != "" ==> !IsDigit(junk[0]))
    ensures sign == "" && ds == "" && junk != "" ==> junk == t && t[0] != '-' && t[0] != '+'
  {
    hide AllDigits;
    if t != "" && (t[0] == '-' || t[0] == '+') {
      sign := [t[0]];
      ds, junk := RunParts(t[1..]);
      assert t == sign + t[1..];
    } else {
      sign := "";
      ds, junk := RunParts(t);
      assert t == sign + t;
    }
  }

  /** Every word is of that form. */
  lemma NumeralParts(s: string) returns (blank: string, sign: string, ds: string, junk: string)
    ensures Numeral(s, blank, sign, ds, junk)
  {
    var n := Span(s, WHITESPACE);
    hide Span;
    Parts(s, n);
    blank := s[..n];
    forall k | 0 <= k < |blank| ensures blank[k] in WHITESPACE {
      assert s[k] in WHITESPACE;
    }
    sign, ds, junk := SignedParts(s[n..]);
  }

  // Socket paths

  const SOCKET_PATH_MAX: nat := 108

  /** `snprintf` into a buffer of `size` bytes. */
  function Truncate(s: string, size: nat): string
    requires size > 0
  {
    if |s| < size then s else s[..size - 1]
  }

  /** The address a client with this pid string binds. */
  function ClientAddress(cacheDir: string, pidStr: string): string {
    Truncate(cacheDir + "/" + pidStr + ".sock", SOCKET_PATH_MAX)
  }

  /** The address the daemon stores for a shell and sends its replies to. */
  function DaemonAddress(cacheDir: string, pid: int): string {
    Truncate(cacheDir + "/" + PrintInt(pid) + ".sock", SOCKET_PATH_MAX)
  }

  /** A path that does not fit the 108 bytes of an address with its NUL is cut to 107. */
  lemma AddressesAre(cacheDir: string, pid: int, pidStr: string)
    ensures var path := cacheDir + "/" + PrintInt(pid) + ".sock";
      DaemonAddress(cacheDir, pid) == if |path| <= 107 then path else path[..107]
    ensures var path := cacheDir + "/" + pidStr + ".sock";
      ClientAddress(cacheDir, pidStr) == if |path| <= 107 then path else path[..107]
  {
  }

  lemma SuffixCancel(a: string, x: string, y: string, z: string)
    ensures a + "/" + x + z == a + "/" + y + z ==> x == y
  {
    var s, t := a + "/" + x + z, a + "/" + y + z;
    if s == t {
      assert |x| == |y|;
      assert x == s[|a| + 1..|a| + 1 + |x|];
      assert y == t[|a| + 1..|a| + 1 + |y|];
    }
  }

  lemma SevenDigits()
    ensures Pow10(7) == 10_000_000
  {
    assert Pow10(3) == 1000;
    assert Pow10(5) == 100_000;
  }

  lemma ShortRun(u: string)
    requires |u| <= 7
    ensures Value(DigitRun(u)) < 10_000_000 && (u == "" ==> Value(DigitRun(u)) == 0)
    ensures |Dec(Value(DigitRun(u)))| <= if u == "" then 1 else |u|
  {
    var ds := DigitRun(u);
    ValueBound(ds);
    Pow10Mono(|ds|, 7);
    SevenDigits();
    if ds == "" {
      assert Dec(0) == ['0'];
    } else {
      DecNoLonger(ds);
    }
  }

  lemma PrintSigned(v: nat)
    ensures |PrintInt(v)| == |Dec(v)| && |PrintInt(0 - v)| <= |Dec(v)| + if v == 0 then 0 else 1
  {
    hide Dec;
  }

  lemma ShortSigned(t: string)
    requires |t| <= 7
    ensures -10_000_000 < SignedValue(t) < 10_000_000
    ensures |PrintInt(SignedValue(t))| <= if t == "" then 1 else |t|
  {
    hide Value, DigitRun, PrintInt, Dec;
    if t != "" && (t[0] == '-' || t[0] == '+') {
      ShortRun(t[1..]);
      PrintSigned(Value(DigitRun(t[1..])));
    } else {
      ShortRun(t);
      PrintSigned(Value(DigitRun(t)));
    }
  }

  /** Short pid strings stay within an `int` and do not grow when printed. */
  lemma ShortPid(s: string)
    requires 0 < |s| <= 7
    ensures PidOf(s).Some? && |PrintInt(PidOf(s).value)| <= |s|
  {
    hide PrintInt, SignedValue;
    ShortSigned(Skip(s, WHITESPACE));
    assert PidOf(s) == Some(SignedValue(Skip(s, WHITESPACE)));
  }

  /** The socket path is not cut short. */
  predicate PathFits(cacheDir: string, name: string) {
    |cacheDir + "/" + name + ".sock"| < SOCKET_PATH_MAX
  }

  /** Cut short, two strings are the same when they were, or when neither is too short to differ. */
  lemma CutPaths(p: string, q: string)
    ensures var n := SOCKET_PATH_MAX - 1;
      Truncate(p, SOCKET_PATH_MAX) == Truncate(q, SOCKET_PATH_MAX)
      <==> p == q || (|p| >= n && |q| >= n && p[..n] == q[..n])
  {
    var n := SOCKET_PATH_MAX - 1;
    if |p| == n { assert p[..n] == p; }
    if |q| == n { assert q[..n] == q; }
  }

  /** Cut to the size of a socket address, the two paths are the same. */
  predicate PathsClash(cacheDir: string, a: string, b: string) {
    var p, q := cacheDir + "/" + a + ".sock", cacheDir + "/" + b + ".sock";
    var n := SOCKET_PATH_MAX - 1;
    |p| >= n && |q| >= n && p[..n] == q[..n]
  }

  /**
    The daemon answers the address the client bound exactly when the pid is canonical or
    the two paths are too long to differ.  For pid strings of at most seven characters
    (pids go up to 2^22) and a cache directory within its bound no path is cut short.
   */
  lemma ReplyReachesClientIff(cacheDir: string, pidStr: string)
    requires PidOf(pidStr).Some?
    ensures var printed := PrintInt(PidOf(pidStr).value);
      DaemonAddress(cacheDir, PidOf(pidStr).value) == ClientAddress(cacheDir, pidStr)
      <==> CanonicalInt(pidStr) || PathsClash(cacheDir, printed, pidStr)
    ensures PathFits(cacheDir, pidStr) && PathFits(cacheDir, PrintInt(PidOf(pidStr).value)) ==>
      (PathsClash(cacheDir, PrintInt(PidOf(pidStr).value), pidStr) ==> CanonicalInt(pidStr))
    ensures |cacheDir| <= 94 && |pidStr| <= 7 ==>
      pidStr == "" || (PathFits(cacheDir, pidStr) && PathFits(cacheDir, PrintInt(PidOf(pidStr).value)))
  {
    var printed := PrintInt(PidOf(pidStr).value);
    if 0 < |pidStr| <= 7 { ShortPid(pidStr); }
    SuffixCancel(cacheDir, printed, pidStr, ".sock");
    PrintParseIff(pidStr);
    hide PrintInt, PidOf, CanonicalInt;
    CutPaths(cacheDir + "/" + printed + ".sock", cacheDir + "/" + pidStr + ".sock");
  }

  lemma ZeroZeroSeven()
    ensures AllDigits("007") && Value("007") == 7
  {
    assert Value("") == 0;
    hide Value;
    ValueSnoc("", '0');
    ValueSnoc("0", '0');
    ValueSnoc("00", '7');
    assert "" + ['0'] == "0" && "0" + ['0'] == "00" && "00" + ['7'] == "007";
  }

  lemma LeadingZeros()
    ensures PidOf("007") == Some(7) && !CanonicalInt("007")
  {
    ZeroZeroSeven();
    SkipNone("007");
    DigitRunAll("007");
    hide Value, DigitRun, Skip, AllDigits;
  }

  /** For instance, the client of shell `007` waits in vain. */
  lemma LeadingZerosMissReply(cacheDir: string)
    requires |cacheDir| <= 94
    ensures PidOf("007") == Some(7) && DaemonAddress(cacheDir, 7) != ClientAddress(cacheDir, "007")
  {
    hide *;
    LeadingZeros();
    ReplyReachesClientIff(cacheDir, "007");
  }

  lemma {:induction false} DecLength(n: nat, k: nat)
    requires n < Pow10(k) && k > 0
    ensures |Dec(n)| <= k
  {
    if n >= 10 { DecLength(n / 10, k - 1); }
  }

  /** Two shells never share an address. */
  lemma DistinctPidsDistinctAddresses(cacheDir: string, p: int, q: int)
    requires |cacheDir| <= 94
    requires 0 <= p <= 0x40_0000 && 0 <= q <= 0x40_0000
    ensures |DaemonAddress(cacheDir, p)| + 1 <= SOCKET_PATH_MAX
    ensures DaemonAddress(cacheDir, p) == cacheDir + "/" + PrintInt(p) + ".sock"
    ensures p != q ==> DaemonAddress(cacheDir, p) != DaemonAddress(cacheDir, q)
  {
    SevenDigits();
    DecLength(p, 7);
    DecLength(q, 7);
    SuffixCancel(cacheDir, PrintInt(p), PrintInt(q), ".sock");
    ParsePrint(p);
    ParsePrint(q);
  }
}
