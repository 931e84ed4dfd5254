/** Which texts are read as node entries, and which text is written for one. */
module NodeTexts {
  import opened NodeEntries

  predicate AllDigits(s: string) {
    forall i | 0 <= i < |s| :: IsDigit(s[i])
  }

  predicate AllSpace(s: string) {
    forall i | 0 <= i < |s| :: IsSpace(s[i])
  }

  /** White space, at most one sign, and digits that stand for n. */
  ghost predicate IntText(t: string, n: int) {
    exists space, sign, digits :: IntParts(t, n, space, sign, digits)
  }

  predicate IntParts(t: string, n: int, space: string, sign: string, digits: string) {
    && t == space + (sign + digits) && AllSpace(space) && sign in {"", "-", "+"}
    && digits != [] && AllDigits(digits) && n == Signed(sign == "-", Value(0, digits))
  }

  function Signed(minus: bool, n: int): int {
    if minus then -n else n
  }

  predicate EndsNumber(rest: string) {
    rest == [] || !IsDigit(rest[0])
  }

  // ---------- numbers ----------

  lemma {:induction false} SkipSplits(s: string) returns (k: nat)
    ensures k <= |s| && AllSpace(s[..k]) && SkipSpace(s) == s[k..] && (k < |s| ==> !IsSpace(s[k]))
  {
    k := 0;
    if s != [] && IsSpace(s[0]) {
      var m := SkipSplits(s[1..]);
      k := m + 1;
      assert s[..k] == [s[0]] + s[1..][..m];
    }
  }

  lemma {:induction false} SkipExact(space: string, rest: string)
    requires AllSpace(space) && (rest == [] || !IsSpace(rest[0]))
    ensures SkipSpace(space + rest) == rest
    decreases |space|
  {
    if space == [] {
      assert space + rest == rest;
    } else {
      assert (space + rest)[1..] == space[1..] + rest;
      SkipExact(space[1..], rest);
    }
  }

  lemma {:induction false} DigitsSplit(s: string, acc: nat) returns (k: nat)
    ensures k <= |s| && AllDigits(s[..k]) && EndsNumber(s[k..])
    ensures ScanDigits(s, acc) == (Value(acc, s[..k]), s[k..])
    decreases |s|
  {
    k := 0;
    if s != [] && IsDigit(s[0]) {
      var m := DigitsSplit(s[1..], 10 * acc + DigitValue(s[0]));
      k := m + 1;
      assert s[..k][1..] == s[1..][..m];
      ValueFront(acc, s[..k]);
    }
  }

  /** %d reads n if and only if the text starts with a number that stands for n; all its digits are taken. */
  lemma ScanIntExact(s: string, n: int, rest: string)
    ensures ScanInt(s) == Match(n, rest) <==> exists t :: s == t + rest && IntText(t, n) && EndsNumber(rest)
  {
    if ScanInt(s) == Match(n, rest) {
      var t := ScannedInt(s, n, rest);
    }
    if t :| s == t + rest && IntText(t, n) && EndsNumber(rest) {
      ScansInt(t, n, rest);
    }
  }

  /** The sign in front of a number, if there is one. */
  lemma SignSplits(u: string) returns (sign: string, v: string)
    ensures u == sign + v && sign in {"", "-", "+"} && (sign == "-" <==> u != [] && u[0] == '-')
    ensures v == if u != [] && (u[0] == '-' || u[0] == '+') then u[1..] else u
  {
    sign := if u != [] && u[0] == '-' then "-" else if u != [] && u[0] == '+' then "+" else "";
    v := u[|sign|..];
  }

  lemma ScannedInt(s: string, n: int, rest: string) returns (t: string)
    requires ScanInt(s) == Match(n, rest)
    ensures s == t + rest && IntText(t, n) && EndsNumber(rest)
  {
    var k := SkipSplits(s);
    var sign, v := SignSplits(s[k..]);
    var m := DigitsSplit(v, 0);
    t := s[..k] + (sign + v[..m]);
    assert rest == v[m..] && m > 0;
    assert IntParts(t, n, s[..k], sign, v[..m]);
    Regroup(s, k, sign, v, m);
  }

  lemma Regroup(s: string, k: nat, sign: string, v: string, m: nat)
    requires k <= |s| && s[k..] == sign + v && m <= |v|
    ensures s == s[..k] + (sign + v[..m]) + v[m..]
  {
    assert s == s[..k] + s[k..] && v == v[..m] + v[m..];
  }

  lemma ScansInt(t: string, n: int, rest: string)
    requires IntText(t, n) && EndsNumber(rest)
    ensures ScanInt(t + rest) == Match(n, rest)
  {
    var space, sign, digits :| IntParts(t, n, space, sign, digits);
    var u := sign + (digits + rest);
    assert t + rest == space + u;
    assert u[0] == if sign == "" then digits[0] else sign[0];
    SkipExact(space, u);
    ScanDigitsValue(digits, rest, 0);
    assert sign != "" ==> u[1..] == digits + rest;
    assert sign == "" ==> u == digits + rest;
  }

  // ---------- hosts ----------

  /** A host that a colon follows is read if and only if it has 1 to 127 characters and no colon. */
  lemma ScanHostExact(s: string, host: string, rest: string)
    requires rest != [] && rest[0] == ':'
    ensures ScanHost(s) == Match(host, rest) <==> s == host + rest && 0 < |host| <= 127 && ':' !in host
  {
    if s == host + rest && 0 < |host| <= 127 && ':' !in host {
      HostPrefixWhole(host, rest, HOST_LIMIT);
      assert s[|host|..] == rest;
    }
  }

  // ---------- entries ----------

  /** The text between the colons: rank, host and the two ports, and what comes behind. */
  datatype Fields = Fields(rank: string, host: string, rdma: string, ctrl: string, rest: string)

  function Join(f: Fields): string {
    ":" + (f.rank + (":" + (f.host + (":" + (f.rdma + (":" + (f.ctrl + f.rest)))))))
  }

  ghost predicate FieldsOf(f: Fields, rank: int, info: NodeInfo) {
    && IntText(f.rank, rank) && f.host == info.host && 0 < |f.host| <= HOST_LIMIT && ':' !in f.host
    && IntText(f.rdma, info.rdmaPort) && IntText(f.ctrl, info.ctrlPort) && EndsNumber(f.rest)
  }

  lemma ColonTail(s: string, t: string)
    ensures s == ":" + t <==> s != [] && s[0] == ':' && s[1..] == t
  {
    assert (":" + t)[1..] == t;
  }

  lemma ScannedEntry(role: Role, s: string, e: NodeEntry) returns (f: Fields)
    requires ScanEntry(role, s) == Some(e)
    ensures e.role == role && s == Join(f) && FieldsOf(f, e.rank, e.info)
  {
    var s1 := ScanColonInt(s).rest;
    var rank := ScannedInt(s[1..], e.rank, s1);
    var host := e.info.host;
    var s2 := ScanColonHost(s1).rest;
    ScanHostExact(s1[1..], host, s2);
    var s3 := ScanColonInt(s2).rest;
    var rdma := ScannedInt(s2[1..], e.info.rdmaPort, s3);
    var s4 := ScanColonInt(s3).rest;
    var ctrl := ScannedInt(s3[1..], e.info.ctrlPort, s4);
    f := Fields(rank, host, rdma, ctrl, s4);
    ColonTail(s3, ctrl + s4);
    ColonTail(s2, rdma + s3);
    ColonTail(s1, host + s2);
    ColonTail(s, rank + s1);
  }

  lemma ScansInfo(f: Fields, info: NodeInfo)
    requires exists rank :: FieldsOf(f, rank, info)
    ensures ScanInfo(":" + (f.host + (":" + (f.rdma + (":" + (f.ctrl + f.rest)))))) == Match(info, f.rest)
  {
    var s3 := ":" + (f.ctrl + f.rest);
    var s2 := ":" + (f.rdma + s3);
    ScansInt(f.ctrl, info.ctrlPort, f.rest);
    ScansInt(f.rdma, info.rdmaPort, s3);
    ScanHostExact(f.host + s2, f.host, s2);
    ScanColon(f.ctrl + f.rest);
    ScanColon(f.rdma + s3);
    ScanColon(f.host + s2);
  }

  lemma ScansEntry(role: Role, f: Fields, rank: int, info: NodeInfo)
    requires FieldsOf(f, rank, info)
    ensures ScanEntry(role, Join(f)) == Some(NodeEntry(role, rank, info))
  {
    var s1 := ":" + (f.host + (":" + (f.rdma + (":" + (f.ctrl + f.rest)))));
    ScansInfo(f, info);
    ScansInt(f.rank, rank, s1);
    ScanColon(f.rank + s1);
  }

  /** The text behind the role tells of this rank and node. */
  ghost predicate TellsOf(s: string, rank: int, info: NodeInfo) {
    exists f :: s == Join(f) && FieldsOf(f, rank, info)
  }

  lemma EntryExact(role: Role, s: string, e: NodeEntry)
    ensures ScanEntry(role, s) == Some(e) <==> e.role == role && TellsOf(s, e.rank, e.info)
  {
    if ScanEntry(role, s) == Some(e) {
      var f := ScannedEntry(role, s, e);
    }
    if TellsOf(s, e.rank, e.info) {
      var f :| s == Join(f) && FieldsOf(f, e.rank, e.info);
      ScansEntry(role, f, e.rank, e.info);
    }
  }

  /** Exactly which texts are read, and as what: a character for the role, where T means training, and
      behind colons a number, a host and two numbers. Everything else is a parse error. */
  lemma ParsesExactly(str: string, e: NodeEntry)
    ensures StringToNode(str) == Some(e) <==>
            && CStr(str) != [] && (e.role.Training? <==> CStr(str)[0] == 'T')
            && TellsOf(CStr(str)[1..], e.rank, e.info)
  {
    var s := CStr(str);
    if s != [] {
      EntryExact(if s[0] == 'T' then Training else Inference, s[1..], e);
    }
  }

  // ---------- what is written ----------

  /** Numbers are written without spaces, plus signs or leading zeros. */
  lemma {:induction false} DigitsAreShort(n: nat)
    ensures |Digits(n)| > 1 ==> Digits(n)[0] != '0'
  {
    if n >= 10 {
      DigitsAreShort(n / 10);
      if n < 100 {
        assert Digits(n / 10) == [DigitChar(n / 10)];
      }
    }
  }

  lemma WrittenInt(n: int)
    ensures exists digits ::
      && PrintInt(n) == (if n < 0 then "-" else "") + digits && digits != [] && AllDigits(digits)
      && Value(0, digits) == (if n < 0 then -n else n) && (|digits| > 1 ==> digits[0] != '0')
  {
    var m := if n < 0 then -n else n;
    DigitsValue(m);
    DigitsAreShort(m);
    assert n >= 0 ==> PrintInt(n) == "" + Digits(m);
  }

  /** At most 255 characters are written, the first ones of the whole text. */
  lemma TextIsCut(e: NodeEntry)
    ensures NodeToString(e) <= Format(e)
    ensures |NodeToString(e)| == if |Format(e)| > 255 then 255 else |Format(e)|
  {
  }

  /** The text of an entry: T or I for the role, then the fields, each behind a colon. */
  lemma WrittenEntry(e: NodeEntry)
    ensures Format(e) == (if e.role.Training? then "T" else "I")
                       + Join(Fields(PrintInt(e.rank), CStr(e.info.host), PrintInt(e.info.rdmaPort), PrintInt(e.info.ctrlPort), []))
  {
    assert PrintInt(e.info.ctrlPort) + [] == PrintInt(e.info.ctrlPort);
  }
}
