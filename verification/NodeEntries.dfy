/** Nodes of the system and the text form in which they are registered for discovery. */
module NodeEntries {

  datatype NodeInfo = NodeInfo(host: string, rdmaPort: int, ctrlPort: int)

  datatype Role = Training | Inference

  datatype NodeEntry = NodeEntry(role: Role, rank: int, info: NodeInfo)

  datatype Scan<T> = Fail | Match(value: T, rest: string)

  /** A C int. */
  predicate Int32(n: int) { -0x8000_0000 <= n < 0x8000_0000 }

  const NUL: char := '\0'

  /** What a C function sees of a string: everything before the first NUL. */
  function CStr(s: string): (r: string)
    ensures NUL !in r && r <= s && (|r| < |s| ==> s[|r|] == NUL)
    ensures NUL !in s ==> r == s
  {
    if s == [] || s[0] == NUL then [] else [s[0]] + CStr(s[1..])
  }

  // ---------- printing ----------

  function DigitChar(d: int): char
    requires 0 <= d < 10
  {
    '0' + d as char
  }

  predicate IsDigit(c: char) { '0' <= c <= '9' }

  function DigitValue(c: char): (d: int)
    requires IsDigit(c)
    ensures 0 <= d < 10
  {
    c as int - '0' as int
  }

  function Digits(n: nat): (s: string)
    ensures s != [] && forall i | 0 <= i < |s| :: IsDigit(s[i])
  {
    if n < 10 then [DigitChar(n)] else Digits(n / 10) + [DigitChar(n % 10)]
  }

  /** The %d conversion of printf. */
  function PrintInt(n: int): string {
    if n < 0 then "-" + Digits(-n) else Digits(n)
  }

  function RoleChar(r: Role): char {
    if r.Training? then 'T' else 'I'
  }

  const BUFFER: nat := 256

  /** ":%s:%d:%d" of a node. */
  function FormatInfo(info: NodeInfo): string {
    ":" + (CStr(info.host) + (":" + (PrintInt(info.rdmaPort) + (":" + PrintInt(info.ctrlPort)))))
  }

  /** The text snprintf would write without a limit: "%c:%d:%s:%d:%d". */
  function Format(e: NodeEntry): string {
    [RoleChar(e.role)] + (":" + (PrintInt(e.rank) + FormatInfo(e.info)))
  }

  /** NodeToString: snprintf keeps what fits in front of the closing NUL. */
  function NodeToString(e: NodeEntry): string {
    var s := Format(e);
    if |s| < BUFFER then s else s[..BUFFER - 1]
  }

  // ---------- scanning ----------

  predicate IsSpace(c: char) {
    c == ' ' || (9 as char <= c <= 13 as char)
  }

  function SkipSpace(s: string): string {
    if s != [] && IsSpace(s[0]) then SkipSpace(s[1..]) else s
  }

  /** The longest run of digits, continued from `acc`. */
  function ScanDigits(s: string, acc: nat): (nat, string) {
    if s != [] && IsDigit(s[0]) then ScanDigits(s[1..], 10 * acc + DigitValue(s[0])) else (acc, s)
  }

  /** The %d conversion of scanf: white space, a sign, at least one digit. */
  function ScanInt(s: string): Scan<int> {
    var t := SkipSpace(s);
    var sign := if t != [] && t[0] == '-' then -1 else 1;
    var u := if t != [] && (t[0] == '-' || t[0] == '+') then t[1..] else t;
    if u == [] || !IsDigit(u[0]) then Fail else
      var (n, rest) := ScanDigits(u, 0);
      Match(sign * n, rest)
  }

  const HOST_LIMIT: nat := 127

  /** The longest prefix of at most `limit` characters without a colon. */
  function HostPrefix(s: string, limit: nat): (h: string)
    ensures |h| <= limit && ':' !in h && h <= s
  {
    if limit == 0 || s == [] || s[0] == ':' then [] else [s[0]] + HostPrefix(s[1..], limit - 1)
  }

  /** The %127[^:] conversion: it must match something. */
  function ScanHost(s: string): Scan<string> {
    var h := HostPrefix(s, HOST_LIMIT);
    if h == [] then Fail else Match(h, s[|h|..])
  }

  /** A literal colon of the format and a number after it. */
  function ScanColonInt(s: string): Scan<int> {
    if s != [] && s[0] == ':' then ScanInt(s[1..]) else Fail
  }

  /** A literal colon of the format and a host after it. */
  function ScanColonHost(s: string): Scan<string> {
    if s != [] && s[0] == ':' then ScanHost(s[1..]) else Fail
  }

  /** The part of the format behind the rank. */
  function ScanInfo(s: string): Scan<NodeInfo> {
    match ScanColonHost(s)
    case Fail => Fail
    case Match(host, s1) =>
      match ScanColonInt(s1)
      case Fail => Fail
      case Match(rdma, s2) =>
        match ScanColonInt(s2)
        case Fail => Fail
        case Match(ctrl, s3) => Match(NodeInfo(host, rdma, ctrl), s3)
  }

  /** The outcome of StringToNode; None stands for the parse error it throws. */
  datatype Parsed = None | Some(entry: NodeEntry)

  /** The part of the format behind the role. */
  function ScanEntry(role: Role, s: string): Parsed {
    match ScanColonInt(s)
    case Fail => None
    case Match(rank, s1) =>
      match ScanInfo(s1)
      case Fail => None
      case Match(info, _) => Some(NodeEntry(role, rank, info))
  }

  function StringToNode(str: string): Parsed {
    var s := CStr(str);
    if s == [] then None else ScanEntry(if s[0] == 'T' then Training else Inference, s[1..])
  }

  // ---------- the pieces round-trip ----------

  /** The number a run of digits stands for, continued from `acc`. */
  function Value(acc: nat, s: string): nat
    requires forall i | 0 <= i < |s| :: IsDigit(s[i])
  {
    if s == [] then acc else 10 * Value(acc, s[..|s| - 1]) + DigitValue(s[|s| - 1])
  }

  lemma {:induction false} ValueFront(acc: nat, s: string)
    requires s != [] && forall i | 0 <= i < |s| :: IsDigit(s[i])
    ensures Value(acc, s) == Value(10 * acc + DigitValue(s[0]), s[1..])
    decreases |s|
  {
    if |s| > 1 {
      var front := s[..|s| - 1];
      ValueFront(acc, front);
      assert s[1..][..|s| - 2] == front[1..];
    } else {
      assert s[..0] == [];
    }
  }

  lemma {:induction false} ScanDigitsValue(s: string, rest: string, acc: nat)
    requires forall i | 0 <= i < |s| :: IsDigit(s[i])
    requires rest == [] || !IsDigit(rest[0])
    ensures ScanDigits(s + rest, acc) == (Value(acc, s), rest)
    decreases |s|
  {
    if s == [] {
      assert s + rest == rest;
    } else {
      ValueFront(acc, s);
      assert (s + rest)[1..] == s[1..] + rest;
      ScanDigitsValue(s[1..], rest, 10 * acc + DigitValue(s[0]));
    }
  }

  lemma {:induction false} DigitsValue(n: nat)
    ensures Value(0, Digits(n)) == n
  {
    var s := Digits(n);
    if n < 10 {
      assert s[..0] == [];
      assert Value(0, s[..0]) == 0;
    } else {
      DigitsValue(n / 10);
      assert s[..|s| - 1] == Digits(n / 10);
    }
  }

  /** Reading back a printed number. */
  lemma ScanPrintedInt(n: int, rest: string)
    requires rest == [] || !IsDigit(rest[0])
    ensures ScanInt(PrintInt(n) + rest) == Match(n, rest)
  {
    var digits := Digits(if n < 0 then -n else n);
    DigitsValue(if n < 0 then -n else n);
    ScanDigitsValue(digits, rest, 0);
    var s := PrintInt(n) + rest;
    if n < 0 {
      assert s[1..] == digits + rest;
    } else {
      assert s == digits + rest;
      assert IsDigit(s[0]);
    }
    assert SkipSpace(s) == s;
  }

  lemma {:induction false} HostPrefixWhole(h: string, rest: string, limit: nat)
    requires |h| <= limit && ':' !in h && rest != [] && rest[0] == ':'
    ensures HostPrefix(h + rest, limit) == h
    decreases |h|
  {
    if h == [] {
      assert h + rest == rest;
    } else {
      assert (h + rest)[0] == h[0] && (h + rest)[1..] == h[1..] + rest;
      assert h[0] in h;
      HostPrefixWhole(h[1..], rest, limit - 1);
    }
  }

  // ---------- length: the buffer never truncates ----------

  function PowerOfTen(k: nat): nat { if k == 0 then 1 else 10 * PowerOfTen(k - 1) }

  lemma {:induction false} DigitsLength(n: nat, k: nat)
    requires 0 < k && n < PowerOfTen(k)
    ensures |Digits(n)| <= k
  {
    if n >= 10 {
      assert k > 1;
      DigitsLength(n / 10, k - 1);
    }
  }

  lemma PrintedLength(n: int)
    requires Int32(n)
    ensures |PrintInt(n)| <= 11
  {
    assert PowerOfTen(3) == 1000 && PowerOfTen(6) == 1000 * PowerOfTen(3) && PowerOfTen(9) == 1000 * PowerOfTen(6);
    assert PowerOfTen(10) == 10_000_000_000;
    DigitsLength(if n < 0 then -n else n, 10);
  }

  // ---------- the round trip ----------

  predicate HostFits(host: string) {
    0 < |host| <= 127 && ':' !in host && NUL !in host
  }

  lemma DigitsNoNul(n: nat)
    ensures NUL !in Digits(n)
  {
  }

  /** The text of an entry with a proper host is short and is read by C as a whole. */
  lemma FormatFits(e: NodeEntry)
    requires Int32(e.rank) && Int32(e.info.rdmaPort) && Int32(e.info.ctrlPort) && HostFits(e.info.host)
    ensures |Format(e)| < BUFFER && NodeToString(e) == Format(e)
    ensures CStr(Format(e)) == Format(e)
  {
    PrintedLength(e.rank);
    PrintedLength(e.info.rdmaPort);
    PrintedLength(e.info.ctrlPort);
    forall n: int
      ensures NUL !in PrintInt(n)
    {
      DigitsNoNul(if n < 0 then -n else n);
    }
    assert NUL !in PrintInt(e.rank) && NUL !in PrintInt(e.info.rdmaPort) && NUL !in PrintInt(e.info.ctrlPort);
  }

  lemma ScanColon(t: string)
    ensures ScanColonInt(":" + t) == ScanInt(t) && ScanColonHost(":" + t) == ScanHost(t)
  {
    assert (":" + t)[1..] == t;
  }

  lemma ScanPrintedHost(host: string, rest: string)
    requires HostFits(host) && rest != [] && rest[0] == ':'
    ensures ScanHost(host + rest) == Match(host, rest)
  {
    HostPrefixWhole(host, rest, HOST_LIMIT);
    assert (host + rest)[|host|..] == rest;
  }

  lemma ScanPrintedInfo(info: NodeInfo)
    requires HostFits(info.host)
    ensures ScanInfo(FormatInfo(info)) == Match(info, [])
  {
    var t3 := PrintInt(info.ctrlPort);
    var t2 := PrintInt(info.rdmaPort) + (":" + t3);
    var t1 := info.host + (":" + t2);
    ScanColon(t3);
    assert t3 + [] == t3;
    ScanPrintedInt(info.ctrlPort, []);
    ScanColon(t2);
    ScanPrintedInt(info.rdmaPort, ":" + t3);
    ScanColon(t1);
    ScanPrintedHost(info.host, ":" + t2);
  }

  lemma ScanPrintedEntry(e: NodeEntry)
    requires HostFits(e.info.host)
    ensures ScanEntry(e.role, ":" + (PrintInt(e.rank) + FormatInfo(e.info))) == Some(e)
  {
    ScanColon(PrintInt(e.rank) + FormatInfo(e.info));
    ScanPrintedInt(e.rank, FormatInfo(e.info));
    ScanPrintedInfo(e.info);
  }

  lemma RoundTrip(e: NodeEntry)
    requires Int32(e.rank) && Int32(e.info.rdmaPort) && Int32(e.info.ctrlPort) && HostFits(e.info.host)
    ensures StringToNode(NodeToString(e)) == Some(e)
  {
    FormatFits(e);
    ScanPrintedEntry(e);
    assert Format(e)[1..] == ":" + (PrintInt(e.rank) + FormatInfo(e.info));
  }

  lemma {:induction false} SkipSpaceKeeps(s: string)
    requires NUL !in s
    ensures NUL !in SkipSpace(s)
  {
    if s != [] && IsSpace(s[0]) {
      SkipSpaceKeeps(s[1..]);
    }
  }

  lemma {:induction false} ScanDigitsKeeps(s: string, acc: nat)
    requires NUL !in s
    ensures NUL !in ScanDigits(s, acc).1
    decreases |s|
  {
    if s != [] && IsDigit(s[0]) {
      ScanDigitsKeeps(s[1..], 10 * acc + DigitValue(s[0]));
    }
  }

  lemma ScanColonIntKeeps(s: string)
    requires NUL !in s && ScanColonInt(s).Match?
    ensures NUL !in ScanColonInt(s).rest
  {
    SkipSpaceKeeps(s[1..]);
    var t := SkipSpace(s[1..]);
    ScanDigitsKeeps(if t[0] == '-' || t[0] == '+' then t[1..] else t, 0);
  }

  lemma ScannedHostFits(s: string)
    requires NUL !in s && ScanInfo(s).Match?
    ensures HostFits(ScanInfo(s).value.host)
  {
  }

  /** Whatever is read back names a host of 1 to 127 characters without colon or NUL. */
  lemma ParsedHostFits(str: string)
    requires StringToNode(str).Some?
    ensures HostFits(StringToNode(str).entry.info.host)
  {
    var s := CStr(str);
    ScanColonIntKeeps(s[1..]);
    ScannedHostFits(ScanColonInt(s[1..]).rest);
  }

  /** Registration round-trips exactly for hosts of 1 to 127 characters without colon or NUL. */
  lemma RoundTripExact(e: NodeEntry)
    requires Int32(e.rank) && Int32(e.info.rdmaPort) && Int32(e.info.ctrlPort)
    ensures StringToNode(NodeToString(e)) == Some(e) <==> HostFits(e.info.host)
  {
    if HostFits(e.info.host) {
      RoundTrip(e);
    } else if StringToNode(NodeToString(e)).Some? {
      ParsedHostFits(NodeToString(e));
    }
  }
}
