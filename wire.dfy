/** The RFC 1413 wire format as oidentd reads and writes it: the request line
    scanned with sscanf("%d , %d"), and the reply lines written with
    sockprintf("%d,%d:USERID:%s:%s\r\n") and sockprintf("%d,%d:ERROR:%s\r\n")
    (section 4 of RFC 1413). */
module Wire {
  import opened Common
  import opened Inet

  /** The error tokens the modelled code sends. */
  datatype ErrorCode = InvalidPort | NoUser | HiddenUser

  datatype ReplyBody = UserId(os: string, user: string) | Error(code: ErrorCode)

  /** One reply line; the ports are the C ints printed with %d, so they may
      be any value the request carried. */
  datatype Reply = Reply(lport: int, fport: int, body: ReplyBody)

  /** A query relayed to the host behind a NAT gateway (the arguments of
      fwd_request after the socket). */
  datatype ForwardQuery = ForwardQuery(
    lport: Port16, masqLport: Port16, fport: Port16, masqFport: Port16, relay: Ip4)

  /** What a request handler sends back to the client: a reply line it
      printed, or the answer of a forwarded query relayed to it. */
  datatype Emitted = Sent(reply: Reply) | Relayed(query: ForwardQuery)

  /** VALID_PORT */
  predicate ValidPort(p: int) {
    1 <= p <= 65535
  }

  // ---------------------------------------------------------------------
  // Scanning "%d , %d"
  // ---------------------------------------------------------------------

  /** isspace() in the C locale: space, \t, \n, \v, \f and \r. */
  predicate IsSpace(c: char) {
    c == ' ' || '\t' <= c <= '\r'
  }

  predicate IsDigit(c: char) {
    '0' <= c <= '9'
  }

  predicate AllDigits(s: string) {
    forall i :: 0 <= i < |s| ==> IsDigit(s[i])
  }

  predicate AllSpace(s: string) {
    forall i :: 0 <= i < |s| ==> IsSpace(s[i])
  }

  /** A white-space directive of the format: it consumes every leading
      white-space character, possibly none. */
  function SkipSpace(s: string): (r: string)
    ensures |r| <= |s| && r == s[|s| - |r|..]
    ensures AllSpace(s[..|s| - |r|])
    ensures r == [] || !IsSpace(r[0])
  {
    if s != [] && IsSpace(s[0]) then
      var r := SkipSpace(s[1..]);
      assert s[..|s| - |r|] == [s[0]] + s[1..][..|s[1..]| - |r|];
      r
    else
      s
  }

  /** The length of the leading run of decimal digits. */
  function DigitRun(s: string): (n: nat)
    ensures n <= |s| && AllDigits(s[..n])
    ensures n == |s| || !IsDigit(s[n])
  {
    if s != [] && IsDigit(s[0]) then
      var m := DigitRun(s[1..]);
      assert s[..1 + m] == [s[0]] + s[1..][..m];
      1 + m
    else
      0
  }

  function DigitValue(c: char): (d: nat)
    requires IsDigit(c)
    ensures d < 10
  {
    c as int - '0' as int
  }

  function DigitChar(d: nat): (c: char)
    requires d < 10
    ensures IsDigit(c) && DigitValue(c) == d
  {
    ('0' as int + d) as char
  }

  /** The value of a string of decimal digits, most significant first. */
  function DigitsValue(s: string): nat
    requires AllDigits(s)
  {
    if s == [] then 0 else 10 * DigitsValue(s[..|s| - 1]) + DigitValue(s[|s| - 1])
  }

  /** The digits of %d after the sign: at least one digit. */
  function ScanDigits(u: string): (r: Option<(nat, string)>)
    ensures r.Some? ==> |r.value.1| < |u| && r.value.1 == u[|u| - |r.value.1|..]
  {
    var n := DigitRun(u);
    if n == 0 then None else Some((DigitsValue(u[..n]), u[n..]))
  }

  /** %d after the leading white space: an optional sign, then digits. */
  function ScanSigned(t: string): (r: Option<(int, string)>)
    ensures r.Some? ==> |r.value.1| < |t| && r.value.1 == t[|t| - |r.value.1|..]
  {
    if t != [] && (t[0] == '-' || t[0] == '+') then
      match ScanDigits(t[1..])
      case None => None
      case Some((v, rest)) => Some((if t[0] == '-' then -(v as int) else v, rest))
    else
      match ScanDigits(t)
      case None => None
      case Some((v, rest)) => Some((v, rest))
  }

  /** %d: optional white space, an optional sign and at least one digit. On a
      match, the value and the unread rest of the input. */
  function ScanInt(s: string): (r: Option<(int, string)>)
    ensures r.Some? ==> |r.value.1| < |s| && r.value.1 == s[|s| - |r.value.1|..]
  {
    ScanSigned(SkipSpace(s))
  }

  /** sscanf(line, "%d , %d", &l, &f) >= 2: both numbers, or None when fewer
      than two conversions succeed. Anything after the second number is
      ignored. */
  function ParseRequest(line: string): Option<(int, int)> {
    match ScanInt(line)
    case None => None
    case Some((l, rest)) =>
      var r := SkipSpace(rest);
      if r == [] || r[0] != ',' then None
      else
        match ScanInt(r[1..])
        case None => None
        case Some((f, _)) => Some((l, f))
  }

  // ---------------------------------------------------------------------
  // Printing "%d"
  // ---------------------------------------------------------------------

  /** The decimal digits of a natural number, without leading zeros. */
  function NatToString(n: nat): (s: string)
    ensures s != [] && AllDigits(s) && DigitsValue(s) == n
    ensures n > 0 ==> s[0] != '0'
  {
    if n < 10 then [DigitChar(n)]
    else
      var p := NatToString(n / 10);
      var s := p + [DigitChar(n % 10)];
      assert s[..|s| - 1] == p;
      s
  }

  /** %d */
  function IntToString(n: int): (s: string)
    ensures s != [] && !IsSpace(s[0])
  {
    if n < 0 then "-" + NatToString(-n) else NatToString(n)
  }

  function ErrorToken(c: ErrorCode): string {
    match c
    case InvalidPort => "INVALID-PORT"
    case NoUser => "NO-USER"
    case HiddenUser => "HIDDEN-USER"
  }

  /** The text of one reply line, CR-LF terminated. */
  function ReplyLine(r: Reply): (s: string)
    ensures |s| >= 2 && s[|s| - 2..] == "\r\n"
  {
    var body := match r.body
      case UserId(os, user) => "USERID:" + os + ":" + user
      case Error(c) => "ERROR:" + ErrorToken(c);
    IntToString(r.lport) + "," + IntToString(r.fport) + ":" + body + "\r\n"
  }

  // ---------------------------------------------------------------------
  // Properties
  // ---------------------------------------------------------------------

  lemma {:induction false} SkipSpaceOver(w: string, x: string)
    requires AllSpace(w)
    requires x == [] || !IsSpace(x[0])
    ensures SkipSpace(w + x) == x
  {
    if w != [] {
      assert (w + x)[1..] == w[1..] + x;
      SkipSpaceOver(w[1..], x);
    }
  }

  lemma {:induction false} DigitRunOver(d: string, x: string)
    requires AllDigits(d)
    requires x == [] || !IsDigit(x[0])
    ensures DigitRun(d + x) == |d|
  {
    if d != [] {
      assert (d + x)[1..] == d[1..] + x;
      DigitRunOver(d[1..], x);
    } else {
      assert d + x == x;
    }
  }

  /** %d reads back what %d printed, and stops at the first character that
      cannot continue the number. */
  lemma ScanDigitsOfPrinted(n: nat, x: string)
    requires x == [] || !IsDigit(x[0])
    ensures ScanDigits(NatToString(n) + x) == Some((n, x))
  {
    var d := NatToString(n);
    var u := d + x;
    DigitRunOver(d, x);
    assert u[..|d|] == d;
    assert u[|d|..] == x;
  }

  lemma ScanSignedOfPrinted(n: int, x: string)
    requires x == [] || !IsDigit(x[0])
    ensures ScanSigned(IntToString(n) + x) == Some((n, x))
  {
    if n < 0 {
      assert IntToString(n) == "-" + NatToString(-n);
      NegativeScan(-n, x);
    } else {
      assert IntToString(n) == NatToString(n);
      NonNegativeScan(n, x);
    }
  }

  lemma NonNegativeScan(n: nat, x: string)
    requires x == [] || !IsDigit(x[0])
    ensures ScanSigned(NatToString(n) + x) == Some((n as int, x))
  {
    var d := NatToString(n);
    ScanDigitsOfPrinted(n, x);
    assert IsDigit((d + x)[0]);
  }

  lemma NegativeScan(m: nat, x: string)
    requires m > 0
    requires x == [] || !IsDigit(x[0])
    ensures ScanSigned("-" + NatToString(m) + x) == Some((-(m as int), x))
  {
    var d := NatToString(m);
    var t := "-" + d + x;
    ScanDigitsOfPrinted(m, x);
    assert t[1..] == d + x;
  }

  lemma ScanIntOfPrinted(w: string, n: int, x: string)
    requires AllSpace(w)
    requires x == [] || !IsDigit(x[0])
    ensures ScanInt(w + IntToString(n) + x) == Some((n, x))
  {
    var p := IntToString(n);
    assert w + p + x == w + (p + x);
    SkipSpaceOver(w, p + x);
    assert SkipSpace(w + p + x) == p + x;
    ScanSignedOfPrinted(n, x);
  }

  /** Proof helper: concatenation of strings is associative. */
  lemma {:induction false} Assoc(a: string, b: string, c: string)
    ensures a + b + c == a + (b + c)
  {
  }

  /** A request line with any white space around the comma, and anything
      after the second number that does not continue it, parses to its two
      numbers. */
  lemma ParseRequestOfPrinted(w1: string, l: int, w2: string, w3: string, f: int, x: string)
    requires AllSpace(w1) && AllSpace(w2) && AllSpace(w3)
    requires x == [] || !IsDigit(x[0])
    ensures ParseRequest(w1 + IntToString(l) + w2 + "," + w3 + IntToString(f) + x) == Some((l, f))
  {
    var A, B := IntToString(l), IntToString(f);
    var t3 := w3 + B + x;
    var t2 := [','] + t3;
    var t1 := w2 + t2;
    var line := w1 + A + w2 + "," + w3 + B + x;
    assert line == w1 + A + t1 by {
      Assoc(w3, B, x);
      Assoc(w1 + A + w2 + ",", w3 + B, x);
      Assoc(w1 + A + w2 + ",", w3, B);
      Assoc(w1 + A + w2, ",", t3);
      Assoc(w1 + A, w2, t2);
    }
    assert ScanInt(line) == Some((l, t1)) by {
      ScanIntOfPrinted(w1, l, t1);
    }
    assert SkipSpace(t1) == t2 by {
      SkipSpaceOver(w2, t2);
    }
    assert ScanInt(t2[1..]) == Some((f, x)) by {
      assert t2[1..] == t3;
      ScanIntOfPrinted(w3, f, x);
    }
    ParseRequestByParts(line, l, t1, f, x);
  }

  lemma ParseRequestByParts(line: string, l: int, rest: string, f: int, x: string)
    requires ScanInt(line) == Some((l, rest))
    requires SkipSpace(rest) != [] && SkipSpace(rest)[0] == ','
    requires ScanInt(SkipSpace(rest)[1..]) == Some((f, x))
    ensures ParseRequest(line) == Some((l, f))
  {
  }

  /** The two ports at the head of a reply line read back as a request for
      the same ports: a reply echoes the query it answers. */
  lemma ReplyEchoesPorts(r: Reply)
    ensures ParseRequest(ReplyLine(r)) == Some((r.lport, r.fport))
  {
    var body := match r.body
      case UserId(os, user) => "USERID:" + os + ":" + user
      case Error(c) => "ERROR:" + ErrorToken(c);
    var p := IntToString(r.lport) + "," + IntToString(r.fport);
    var x := ":" + body + "\r\n";
    assert ReplyLine(r) == p + ":" + body + "\r\n";
    assert ReplyLine(r) == p + x by {
      Assoc(p, ":", body);
      Assoc(p, ":" + body, "\r\n");
    }
    ParseTightRequest(r.lport, r.fport, x);
  }

  /** Two printed ints with nothing but a comma between them. */
  lemma ParseTightRequest(l: int, f: int, x: string)
    requires x == [] || !IsDigit(x[0])
    ensures ParseRequest(IntToString(l) + "," + IntToString(f) + x) == Some((l, f))
  {
    var A, B := IntToString(l), IntToString(f);
    assert "" + A + "" + "," + "" + B + x == A + "," + B + x;
    ParseRequestOfPrinted("", l, "", "", f, x);
  }

  /** A line without a comma never parses, so it gets no reply. */
  lemma ParseRequestNeedsComma(line: string)
    requires ',' !in line
    ensures ParseRequest(line) == None
  {
  }

  /** The request of the protocol's usual exchange, with a blank after the
      comma, reads as the two ports. */
  lemma ExampleRequest()
    ensures ParseRequest("4321, 23\r\n") == Some((4321, 23))
  {
    assert "4321, 23\r\n" == "" + IntToString(4321) + "" + "," + " " + IntToString(23) + "\r\n" by {
      Print4321();
      Print23();
    }
    ParseRequestOfPrinted("", 4321, "", " ", 23, "\r\n");
  }

  lemma Print4321()
    ensures IntToString(4321) == "4321"
  {
    assert NatToString(4) == "4";
    assert NatToString(43) == "43";
    assert NatToString(432) == "432";
  }

  lemma Print23()
    ensures IntToString(23) == "23"
  {
    assert NatToString(2) == "2";
  }

  lemma Print99999()
    ensures IntToString(99999) == "99999"
  {
    assert NatToString(9) == "9";
    assert NatToString(99) == "99";
    assert NatToString(999) == "999";
    assert NatToString(9999) == "9999";
  }

  /** The USERID reply to that request, for user alice on a UNIX system. */
  lemma ExampleUserIdReply()
    ensures ReplyLine(Reply(4321, 23, UserId("UNIX", "alice"))) == "4321,23:USERID:UNIX:alice\r\n"
  {
    Print4321();
    Print23();
  }

  /** The reply to a request whose local port is out of range. */
  lemma ExampleInvalidPortReply()
    ensures ReplyLine(Reply(99999, 23, Error(InvalidPort))) == "99999,23:ERROR:INVALID-PORT\r\n"
  {
    Print99999();
    Print23();
  }
}
