/** Host lists of a connection URL: printing, parsing, and when parsing undoes printing. */
module Hosts {
  import opened Text

  const DEFAULT_PORT: int := 3306

  /** An empty `kind` is an untyped address. */
  datatype HostAddress = HostAddress(host: string, port: int, kind: string)

  /** `Hangs` is a loop in the source that never ends. */
  datatype Outcome<+T> = Returns(value: T) | Throws | Hangs

  predicate Int32(n: int) {
    -0x8000_0000 <= n < 0x8000_0000
  }

  // ---------------------------------------------------------------- numbers

  /** `std::to_string`. */
  function IntText(n: int): string {
    if n < 0 then "-" + Decimal(-n) else Decimal(n)
  }

  function DigitPrefix(s: string): (r: string)
    ensures AllDigits(r)
  {
    if s != [] && IsDigit(s[0]) then [s[0]] + DigitPrefix(s[1..]) else ""
  }

  /** `std::stoi`: white space, a sign, digits; what follows the digits is ignored. */
  function StoI(s: string): Option<int> {
    var t := LTrim(s);
    var signed := t != [] && (t[0] == '-' || t[0] == '+');
    var digits := DigitPrefix(if signed then t[1..] else t);
    var n := if signed && t[0] == '-' then 0 - Value(digits) else Value(digits) as int;
    if digits == "" || !Int32(n) then None else Some(n)
  }

  lemma {:induction false} DigitPrefixAll(s: string)
    requires AllDigits(s)
    ensures DigitPrefix(s) == s
  {
    if s != [] {
      DigitPrefixAll(s[1..]);
      assert s == [s[0]] + s[1..];
    }
  }

  lemma StoIOfIntText(n: int)
    requires Int32(n)
    ensures StoI(IntText(n)) == Some(n)
  {
    hide Decimal, Value;
    var size := if n < 0 then -n else n;
    var s := Decimal(size);
    DigitPrefixAll(s);
    ValueOfDecimal(size);
    if n < 0 {
      assert IntText(n)[1..] == s;
    } else {
      assert IsDigit(s[0]);
    }
  }

  /** A printed number is free of separators and white space. */
  lemma IntTextPlain(n: int)
    ensures IntText(n) != "" && Absent(':', IntText(n)) && Absent(',', IntText(n))
    ensures !IsSpace(IntText(n)[|IntText(n)| - 1])
  {
    hide Decimal;
    var s := Decimal(if n < 0 then -n else n);
    assert IsDigit(s[|s| - 1]);
    forall i | 0 <= i < |IntText(n)| ensures IsDigit(IntText(n)[i]) || IntText(n)[i] == '-' {
    }
  }

  // ---------------------------------------------------------------- printing

  function AddressText(a: HostAddress): string {
    if a.kind != "" then
      "address=(host=" + a.host + ")(port=" + IntText(a.port) + ")(type=" + a.kind + ")"
    else
      (if Absent(':', a.host) then a.host else "[" + a.host + "]") + ":" + IntText(a.port)
  }

  function Texts(list: seq<HostAddress>): (r: seq<string>)
    ensures |r| == |list|
  {
    seq(|list|, i requires 0 <= i < |list| => AddressText(list[i]))
  }

  function ListText(list: seq<HostAddress>): string {
    Join(Texts(list), ',')
  }

  lemma {:induction false} JoinAppend(parts: seq<string>, last: string, sep: char)
    ensures Join(parts + [last], sep) == if parts == [] then last else Join(parts, sep) + [sep] + last
  {
    if parts != [] {
      assert (parts + [last])[1..] == parts[1..] + [last];
      JoinAppend(parts[1..], last, sep);
    }
  }

  lemma TextsNext(list: seq<HostAddress>, i: nat)
    requires i < |list|
    ensures Texts(list[..i + 1]) == Texts(list[..i]) + [AddressText(list[i])]
  {
  }

  method ToString(addrs: seq<HostAddress>) returns (str: string)
    ensures str == ListText(addrs)
  {
    hide AddressText, Join;
    str := "";
    assert Join(Texts(addrs[..0]), ',') == "" by { JoinNone(addrs); }
    for i := 0 to |addrs|
      invariant str == ListText(addrs[..i]) + if 0 < i < |addrs| then "," else ""
    {
      TextsNext(addrs, i);
      JoinAppend(Texts(addrs[..i]), AddressText(addrs[i]), ',');
      str := str + AddressText(addrs[i]);
      if i < |addrs| - 1 {
        str := str + ",";
      }
    }
    assert addrs[..|addrs|] == addrs;
  }

  lemma JoinNone(addrs: seq<HostAddress>)
    ensures Texts(addrs[..0]) == [] && Join([], ',') == ""
  {
  }

  // ---------------------------------------------------------------- parsing

  function Lower(s: string): string {
    seq(|s|, i requires 0 <= i < |s| => if 'A' <= s[i] <= 'Z' then (s[i] as int + 32) as char else s[i])
  }

  /** Every round of the source's loop starts at the first parenthesis again: the first round decides, and one that
      does not throw repeats for ever. */
  function ParseParameters(str: string): Outcome<HostAddress> {
    match Find(str, "(", 0)
    case None => Returns(HostAddress("", DEFAULT_PORT, ""))
    case Some(open) =>
      match Find(str, ")", open + 1)
      case None => Throws
      case Some(close) =>
        var pair := Fields(Trim(str[open + 1..close]), '=');
        if |pair| != 2 || (Lower(pair[0]) == "port" && StoI(pair[1]).None?) then Throws else Hangs
  }

  function WithPort(host: string, port: Option<int>): Outcome<HostAddress> {
    match port
    case None => Throws
    case Some(n) => Returns(HostAddress(host, n, ""))
  }

  /** A host in brackets; the closing bracket stays in the host. */
  function ParseBracketed(str: string): Outcome<HostAddress>
    requires str != ""
  {
    match Find(str, "]", 0)
    case None => Returns(HostAddress(CStr(str[1..]), DEFAULT_PORT, ""))
    case Some(i) =>
      var host := CStr(str[1..i + 1]);
      if i + 1 < |str| && str[i + 1] == ':' then WithPort(host, StoI(CStr(str[i + 2..])))
      else Returns(HostAddress(host, DEFAULT_PORT, ""))
  }

  function ParseSimple(str: string): Outcome<HostAddress> {
    if str == "" then Throws
    else if str[0] == '[' then ParseBracketed(str)
    else if !Absent(':', str) then
      var hostPort := Fields(str, ':');
      if |hostPort| < 2 then Throws else WithPort(hostPort[0], StoI(hostPort[1]))
    else Returns(HostAddress(str, DEFAULT_PORT, ""))
  }

  function ParseToken(token: string): Outcome<HostAddress> {
    if "address=" <= token then ParseParameters(token) else ParseSimple(token)
  }

  /** The tokens in order; the first that does not return ends the parse. */
  function ParseTokens(tokens: seq<string>): Outcome<seq<HostAddress>> {
    if tokens == [] then Returns([])
    else
      match ParseTokens(tokens[..|tokens| - 1])
      case Throws => Throws
      case Hangs => Hangs
      case Returns(done) =>
        match ParseToken(tokens[|tokens| - 1])
        case Throws => Throws
        case Hangs => Hangs
        case Returns(a) => Returns(done + [a])
  }

  /** In a replication URL an untyped head is the master and the other untyped hosts are slaves. */
  function Typed(list: seq<HostAddress>): (r: seq<HostAddress>)
    ensures |r| == |list|
  {
    seq(|list|, i requires 0 <= i < |list| =>
      if list[i].kind != "" then list[i] else list[i].(kind := if i == 0 then "master" else "slave"))
  }

  function Parse(spec: string, replication: bool): Outcome<seq<HostAddress>> {
    if spec == "" then Throws
    else
      match ParseTokens(Fields(Trim(spec), ','))
      case Throws => Throws
      case Hangs => Hangs
      case Returns(list) => Returns(if replication then Typed(list) else list)
  }

  method ParseList(spec: string, replication: bool) returns (result: Outcome<seq<HostAddress>>)
    ensures result == Parse(spec, replication)
  {
    hide ParseToken, Trim;
    if spec == "" {
      return Throws;
    }
    var tokens := Split(Trim(spec), ',');
    var list: seq<HostAddress> := [];
    for i := 0 to |tokens|
      invariant ParseTokens(tokens[..i]) == Returns(list)
    {
      assert tokens[..i + 1][..i] == tokens[..i];
      var r := ParseToken(tokens[i]);
      if !r.Returns? {
        StoppedEarly(tokens, i + 1);
        return if r.Throws? then Throws else Hangs;
      }
      list := list + [r.value];
    }
    assert tokens[..|tokens|] == tokens;
    if replication {
      list := AssignTypes(list);
    }
    return Returns(list);
  }

  lemma {:induction false} StoppedEarly(tokens: seq<string>, k: nat)
    requires k <= |tokens| && !ParseTokens(tokens[..k]).Returns?
    ensures ParseTokens(tokens) == ParseTokens(tokens[..k])
  {
    if k == |tokens| {
      assert tokens[..k] == tokens;
    } else {
      var front := tokens[..|tokens| - 1];
      assert front[..k] == tokens[..k];
      StoppedEarly(front, k);
    }
  }

  method AssignTypes(list: seq<HostAddress>) returns (r: seq<HostAddress>)
    ensures r == Typed(list)
  {
    r := list;
    for i := 0 to |list|
      invariant |r| == |list|
      invariant forall k :: 0 <= k < |list| ==> r[k] == if k < i then Typed(list)[k] else list[k]
    {
      if i == 0 && r[i].kind == "" {
        r := r[i := r[i].(kind := "master")];
      } else if i != 0 && r[i].kind == "" {
        r := r[i := r[i].(kind := "slave")];
      }
    }
  }

  // ---------------------------------------------------------------- one address

  predicate Misread(host: string) {
    "[" <= host || "address=" <= host
  }

  lemma ParseHostPort(host: string, port: int)
    requires Absent(':', host) && Int32(port) && !("[" <= host)
    ensures ParseSimple(host + ":" + IntText(port)) == Returns(HostAddress(host, port, ""))
  {
    hide StoI, IntText, Fields, ParseBracketed;
    var text := host + ":" + IntText(port);
    IntTextPlain(port);
    FieldsOfFirst(host, IntText(port), ':');
    FieldsOfAbsent(IntText(port), ':');
    StoIOfIntText(port);
    assert text[|host|] == ':';
    assert host != "" ==> text[0] == host[0];
  }

  lemma AddressPrefix(host: string, rest: string)
    requires Absent(':', host)
    ensures "address=" <= host + ":" + rest <==> "address=" <= host
  {
    var text := host + ":" + rest;
    assert text[|host|] == ':' && Absent(':', "address=");
  }

  /** Parsed hosts are never longer than the printed one, unless they swallow the colon. */
  lemma ParsedHost(host: string, port: int, b: HostAddress)
    requires Absent(':', host) && Int32(port)
    requires ParseToken(host + ":" + IntText(port)) == Returns(b)
    ensures b.kind == ""
    ensures !Absent(':', b.host) || |b.host| <= |host|
    ensures Misread(host) ==> b.host != host
  {
    hide StoI, IntText, ParseSimple, ParseParameters;
    var text := host + ":" + IntText(port);
    AddressPrefix(host, IntText(port));
    if "address=" <= host {
      ParametersReturn(text);
    } else if "[" <= host {
      assert text[0] == '[';
      BracketedReturns(host, IntText(port), b);
    } else {
      ParseHostPort(host, port);
    }
  }

  lemma ParametersReturn(str: string)
    ensures ParseParameters(str).Returns? ==> ParseParameters(str) == Returns(HostAddress("", DEFAULT_PORT, ""))
  {
  }

  lemma BracketedReturns(host: string, rest: string, b: HostAddress)
    requires "[" <= host && Absent(':', host)
    requires ParseSimple(host + ":" + rest) == Returns(b)
    ensures b.kind == "" && b.host != host
    ensures !Absent(':', b.host) || |b.host| <= |host|
  {
    hide StoI, Fields, Find, CStr;
    var text := host + ":" + rest;
    assert text[0] == '[' && text[|host|] == ':';
    match Find(text, "]", 0)
    case None =>
      CStrOf(text[1..]);
      assert text[1..][|host| - 1] == ':';
    case Some(i) =>
      CStrOf(text[1..i + 1]);
      assert text[i..i + 1] == "]";
      assert text[i] == ']';
      if i > |host| {
        assert text[1..i + 1][|host| - 1] == ':';
      }
  }

  lemma CStrOf(s: string)
    ensures |CStr(s)| <= |s| && CStr(s) <= s
  {
  }

  /** A host whose first "]" is its last character, and that is not cut at a NUL. */
  predicate EndsAtBracket(host: string) {
    host != "" && host[|host| - 1] == ']' && Absent(']', host[..|host| - 1]) && Absent('\0', host)
  }

  /** The addresses whose printed form is read back: untyped ones without ":" that do not look like something else, and
      of those with ":" only the ones that bring their own bracket and the default port. */
  predicate ReadBack(a: HostAddress) {
    a.kind == "" && if Absent(':', a.host) then !Misread(a.host) else EndsAtBracket(a.host) && a.port == DEFAULT_PORT
  }

  /** A typed address is printed in a form that never comes back: the parse throws or does not end. */
  lemma TypedUnread(a: HostAddress)
    requires a.kind != ""
    ensures "address=" <= AddressText(a) && !ParseToken(AddressText(a)).Returns?
  {
    hide Fields, StoI, Trim, Lower, IntText;
    var text := AddressText(a);
    assert "address=" <= text;
    assert text[8..9] == "(";
    assert MatchesAt(text, "(", 8);
  }

  lemma FindChar(s: string, c: char, from: nat, at: nat)
    requires from <= at < |s| && s[at] == c && forall i :: from <= i < at ==> s[i] != c
    ensures Find(s, [c], from) == Some(at)
  {
    assert s[at..at + 1] == [c];
    forall i: nat | from <= i < at ensures !MatchesAt(s, [c], i) {
      assert s[i..i + 1] == [s[i]];
    }
    FindIs(s, [c], from, at);
  }

  lemma PairExample()
    ensures Fields(Trim("host=h"), '=') == ["host", "h"] && Lower("host") != "port"
  {
    TrimIndented("", "host=h");
    assert "" + "host=h" == "host=h";
    FieldsOfFirst("host", "h", '=');
    FieldsOfAbsent("h", '=');
    assert "host" + ['='] + "h" == "host=h";
    assert Lower("host")[0] == 'h';
  }

  lemma PairHangs(rest: string)
    ensures ParseParameters("address=(host=h)" + rest) == Hangs
  {
    hide StoI, Fields, Trim, Lower, Find;
    var head := "address=(host=h)";
    var text := head + rest;
    assert forall i :: 0 <= i < 16 ==> text[i] == head[i];
    FindChar(text, '(', 0, 8);
    FindChar(text, ')', 9, 15);
    assert text[9..15] == "host=h";
    PairExample();
  }

  /** The smallest typed address: its parse does not end. */
  lemma TypedExample()
    ensures ParseToken(AddressText(HostAddress("h", 1, "master"))) == Hangs
  {
    hide ParseParameters, IntText;
    var rest := "(port=" + IntText(1) + ")(type=master)";
    PairHangs(rest);
    assert AddressText(HostAddress("h", 1, "master")) == "address=(host=h)" + rest;
  }

  lemma BracketIndex(h: string, rest: string) returns (i: nat)
    ensures var text := "[" + h + "]" + rest;
            Find(text, "]", 0) == Some(i) && 1 <= i <= |h| + 1 && text[i] == ']'
            && Absent(']', h[..i - 1]) && (i <= |h| ==> h[i - 1] == ']')
  {
    hide Find;
    var inner := h + "]";
    var text := "[" + h + "]" + rest;
    assert forall k :: 0 <= k < |inner| ==> text[k + 1] == inner[k];
    var j := FirstBracket(inner);
    i := j + 1;
    assert Absent(']', inner[..j]) && text[0] == '[';
    forall k | 0 <= k < i ensures text[k] != ']' {
      assert k > 0 ==> text[k] == inner[..j][k - 1];
    }
    FindChar(text, ']', 0, i);
    assert h[..j] == inner[..j];
  }

  lemma {:induction false} FirstBracket(s: string) returns (j: nat)
    requires s != "" && s[|s| - 1] == ']'
    ensures j < |s| && s[j] == ']' && Absent(']', s[..j])
  {
    if s[0] == ']' {
      j := 0;
    } else {
      var k := FirstBracket(s[1..]);
      j := k + 1;
      assert s[..j] == [s[0]] + s[1..][..k];
    }
  }

  lemma ParsesBracketed(a: HostAddress)
    requires a.kind == "" && !Absent(':', a.host)
    ensures ParseToken(AddressText(a)) == ParseBracketed("[" + a.host + "]" + (":" + IntText(a.port)))
  {
    hide IntText, ParseBracketed;
    var text := "[" + a.host + "]" + (":" + IntText(a.port));
    assert AddressText(a) == text;
    assert text[0] == '[';
  }

  /** The first bracket is the printed one: the host comes back with it, or cut before it. */
  lemma BracketAdded(h: string, rest: string, b: HostAddress)
    requires Find("[" + h + "]" + rest, "]", 0) == Some(|h| + 1)
    requires ParseBracketed("[" + h + "]" + rest) == Returns(b)
    ensures b.host != h
  {
    hide StoI, Find, CStr;
    var text := "[" + h + "]" + rest;
    assert text[1..|h| + 2] == h + "]";
    NotCutAtBracket(h);
  }

  /** The first bracket stands inside the host: what comes back is too short. */
  lemma BracketInside(h: string, rest: string, i: nat, b: HostAddress)
    requires i < |h| && Find("[" + h + "]" + rest, "]", 0) == Some(i)
    requires ParseBracketed("[" + h + "]" + rest) == Returns(b)
    ensures b.host != h
  {
    hide StoI, Find, CStr;
    var text := "[" + h + "]" + rest;
    assert text[1..i + 1] == h[..i];
  }

  /** The first bracket ends the host: then another follows, and no port is read. */
  lemma BracketAtEnd(h: string, rest: string)
    requires h != "" && Find("[" + h + "]" + rest, "]", 0) == Some(|h|)
    ensures ParseBracketed("[" + h + "]" + rest) == Returns(HostAddress(CStr(h), DEFAULT_PORT, ""))
  {
    hide StoI, Find, CStr;
    var text := "[" + h + "]" + rest;
    assert text[1..|h| + 1] == h;
    assert text[|h| + 1] == ']';
  }

  lemma EndsAtBracketIs(h: string, i: nat)
    requires 1 <= i <= |h| + 1 && Absent(']', h[..i - 1]) && (i <= |h| ==> h[i - 1] == ']')
    ensures EndsAtBracket(h) <==> i == |h| && Absent('\0', h)
  {
    if i < |h| {
      assert h[..|h| - 1][i - 1] == ']';
    } else if i == |h| + 1 {
      assert h[..i - 1] == h;
    }
  }

  /** Of the hosts with ":" hardly any are read back. */
  lemma BracketTokenIff(a: HostAddress)
    requires a.kind == "" && !Absent(':', a.host)
    ensures ParseToken(AddressText(a)) == Returns(a) <==> EndsAtBracket(a.host) && a.port == DEFAULT_PORT
  {
    hide ParseToken, AddressText, ParseBracketed, Find, EndsAtBracket, IntText, CStr, Absent;
    var h := a.host;
    var rest := ":" + IntText(a.port);
    ParsesBracketed(a);
    var i := BracketIndex(h, rest);
    EndsAtBracketIs(h, i);
    if i == |h| {
      BracketAtEnd(h, rest);
    } else if ParseToken(AddressText(a)) == Returns(a) {
      if i < |h| {
        BracketInside(h, rest, i, a);
      } else {
        BracketAdded(h, rest, a);
      }
    }
  }

  lemma NotCutAtBracket(h: string)
    ensures CStr(h + "]") != h
  {
    if !Absent('\0', h + "]") {
      CutAtNul(h + "]");
    }
  }

  lemma TokenIff(a: HostAddress)
    requires Int32(a.port)
    ensures ParseToken(AddressText(a)) == Returns(a) <==> ReadBack(a)
  {
    hide ParseSimple, ParseParameters, IntText, EndsAtBracket;
    if a.kind != "" {
      TypedUnread(a);
    } else if !Absent(':', a.host) {
      BracketTokenIff(a);
    } else if !Misread(a.host) {
      AddressPrefix(a.host, IntText(a.port));
      ParseHostPort(a.host, a.port);
    } else if ParseToken(AddressText(a)) == Returns(a) {
      ParsedHost(a.host, a.port, a);
    }
  }

  // ---------------------------------------------------------------- lists of addresses

  /** The printed list with the white space before its first host gone. */
  function TrimmedTexts(list: seq<HostAddress>): (r: seq<string>)
    ensures |r| == |list|
  {
    if list == [] then [] else [LTrim(AddressText(list[0]))] + Texts(list)[1..]
  }

  /** The type of `port`. */
  predicate Ports(list: seq<HostAddress>) {
    forall i :: 0 <= i < |list| ==> Int32(list[i].port)
  }

  /** White space that stands first in the printed form, where trimming takes it away. */
  predicate Trimmed(host: string) {
    Absent(':', host) && host != "" && IsSpace(host[0])
  }

  /** What `parse` needs of a printed list. */
  ghost predicate Readable(list: seq<HostAddress>) {
    && list != []
    && (forall i :: 0 <= i < |list| ==> Absent(',', list[i].host) && ReadBack(list[i]))
    && !Trimmed(list[0].host)
  }

  lemma {:induction false} LTrimPrefix(s: string, rest: string)
    requires exists i :: 0 <= i < |s| && !IsSpace(s[i])
    ensures LTrim(s + rest) == LTrim(s) + rest
    ensures LTrim(s) != "" && s[|s| - 1] == LTrim(s)[|LTrim(s)| - 1]
  {
    if IsSpace(s[0]) {
      assert (s + rest)[1..] == s[1..] + rest;
      var i :| 0 <= i < |s| && !IsSpace(s[i]);
      assert !IsSpace(s[1..][i - 1]);
      LTrimPrefix(s[1..], rest);
    }
  }

  lemma RTrimNone(s: string)
    requires s != "" && !IsSpace(s[|s| - 1])
    ensures RTrim(s) == s
  {
  }

  lemma {:induction false} JoinEnd(parts: seq<string>, sep: char)
    requires parts != [] && parts[|parts| - 1] != ""
    ensures var s := Join(parts, sep);
            var last := parts[|parts| - 1];
            s != "" && s[|s| - 1] == last[|last| - 1]
  {
    if |parts| > 1 {
      JoinEnd(parts[1..], sep);
    }
  }

  lemma TextEnds(a: HostAddress)
    ensures var s := AddressText(a);
            s != "" && !IsSpace(s[|s| - 1])
  {
    hide IntText;
    IntTextPlain(a.port);
    var s := AddressText(a);
    if a.kind != "" {
      assert s[|s| - 1] == ')';
    } else {
      assert s[|s| - 1] == IntText(a.port)[|IntText(a.port)| - 1];
    }
  }

  lemma PlainText(a: HostAddress)
    requires a.kind == "" && Absent(':', a.host)
    ensures AddressText(a) == a.host + ":" + IntText(a.port)
    ensures LTrim(AddressText(a)) == LTrim(a.host + ":") + IntText(a.port)
  {
    hide IntText;
    assert !IsSpace((a.host + ":")[|a.host|]);
    LTrimPrefix(a.host + ":", IntText(a.port));
  }

  lemma JoinFirst(first: string, rest: seq<string>, sep: char)
    ensures Join([first] + rest, sep) == first + if rest == [] then "" else [sep] + Join(rest, sep)
  {
    assert ([first] + rest)[1..] == rest;
  }

  /** Trimming a joined text whose outer parts do not end in white space trims its first part only. */
  lemma TrimJoined(first: string, rest: seq<string>, sep: char)
    requires first != "" && !IsSpace(first[|first| - 1])
    requires rest != [] ==> rest[|rest| - 1] != "" && !IsSpace(rest[|rest| - 1][|rest[|rest| - 1]| - 1])
    ensures Trim(Join([first] + rest, sep)) == Join([LTrim(first)] + rest, sep)
  {
    hide Join, RTrim, LTrim, IsSpace;
    var tail := if rest == [] then "" else [sep] + Join(rest, sep);
    JoinFirst(first, rest, sep);
    JoinFirst(LTrim(first), rest, sep);
    LTrimPrefix(first, tail);
    JoinEnd([LTrim(first)] + rest, sep);
    RTrimNone(Join([LTrim(first)] + rest, sep));
  }

  lemma TrimList(list: seq<HostAddress>)
    requires list != []
    ensures Trim(ListText(list)) == Join(TrimmedTexts(list), ',')
  {
    hide AddressText, Trim, LTrim, Join, IsSpace;
    var texts := Texts(list);
    TextEnds(list[0]);
    TextEnds(list[|list| - 1]);
    TrimJoined(texts[0], texts[1..], ',');
    assert texts == [texts[0]] + texts[1..];
  }

  // ---------------------------------------------------------------- counting the tokens

  lemma {:induction false} FieldsConcat(a: string, b: string, sep: char)
    ensures |Fields(a + b, sep)| == |Fields(a, sep)| + |Fields(b, sep)| - 1
  {
    if a == [] {
      assert a + b == b;
    } else {
      assert (a + b)[1..] == a[1..] + b;
      FieldsConcat(a[1..], b, sep);
    }
  }

  lemma {:induction false} OneField(s: string, sep: char)
    ensures |Fields(s, sep)| == 1 <==> Absent(sep, s)
  {
    if Absent(sep, s) {
      FieldsOfAbsent(s, sep);
    } else {
      var i :| 0 <= i < |s| && s[i] == sep;
      assert s == s[..i] + ([sep] + s[i + 1..]);
      FieldsConcat(s[..i], [sep] + s[i + 1..], sep);
      assert ([sep] + s[i + 1..])[1..] == s[i + 1..];
    }
  }

  /** A joined text splits into as many fields as parts only if no part holds the separator. */
  lemma {:induction false} JoinedFields(parts: seq<string>, sep: char)
    requires parts != []
    ensures |Fields(Join(parts, sep), sep)| >= |parts|
    ensures |Fields(Join(parts, sep), sep)| == |parts| ==> forall i :: 0 <= i < |parts| ==> Absent(sep, parts[i])
  {
    hide Fields;
    OneField(parts[0], sep);
    if |parts| > 1 {
      var tail := [sep] + Join(parts[1..], sep);
      assert Join(parts, sep) == parts[0] + tail;
      FieldsConcat(parts[0], tail, sep);
      FieldsOfFirst("", Join(parts[1..], sep), sep);
      assert "" + [sep] + Join(parts[1..], sep) == tail;
      JoinedFields(parts[1..], sep);
    }
  }

  // ---------------------------------------------------------------- the round trip

  lemma {:induction false} ParseTokensIff(tokens: seq<string>, list: seq<HostAddress>)
    ensures ParseTokens(tokens) == Returns(list)
       <==> |tokens| == |list| && forall i :: 0 <= i < |list| ==> ParseToken(tokens[i]) == Returns(list[i])
  {
    hide ParseToken;
    if tokens != [] {
      var n := |tokens| - 1;
      if list != [] {
        var k := |list| - 1;
        ParseTokensIff(tokens[..n], list[..k]);
        assert list == list[..k] + [list[k]];
        if ParseTokens(tokens) == Returns(list) {
          var done := ParseTokens(tokens[..n]).value;
          assert done == list[..k];
        }
      }
    }
  }

  lemma {:induction false} LTrimHost(host: string)
    ensures LTrim(host + ":") == LTrim(host) + ":"
    ensures |LTrim(host)| <= |host|
    ensures Absent(':', host) ==> Absent(':', LTrim(host))
  {
    if host != "" && IsSpace(host[0]) {
      assert (host + ":")[1..] == host[1..] + ":";
      LTrimHost(host[1..]);
    }
  }

  lemma TokenUntyped(token: string)
    ensures ParseToken(token).Returns? ==> ParseToken(token).value.kind == ""
  {
    hide Fields, StoI, Trim, Lower;
  }

  lemma TypedInjective(r: seq<HostAddress>, list: seq<HostAddress>)
    requires forall i :: 0 <= i < |r| ==> r[i].kind == ""
    requires forall i :: 0 <= i < |list| ==> list[i].kind == ""
    requires Typed(r) == Typed(list)
    ensures r == list
  {
    forall i | 0 <= i < |r| ensures r[i] == list[i] {
      assert Typed(r)[i].(kind := "") == r[i];
      assert Typed(list)[i].(kind := "") == list[i];
    }
  }

  /** As many tokens as addresses means that the tokens are the printed addresses. */
  lemma TokensAreTexts(list: seq<HostAddress>)
    requires list != [] && |Fields(Trim(ListText(list)), ',')| == |list|
    ensures Fields(Trim(ListText(list)), ',') == TrimmedTexts(list)
    ensures forall i :: 0 <= i < |list| ==> Absent(',', TrimmedTexts(list)[i])
  {
    hide AddressText, Trim, Fields, LTrim, Absent;
    TrimList(list);
    JoinedFields(TrimmedTexts(list), ',');
    FieldsOfJoin(TrimmedTexts(list), ',');
  }

  lemma NotTrimmed(a: HostAddress)
    requires a.kind != "" || !Trimmed(a.host)
    ensures LTrim(AddressText(a)) == AddressText(a)
  {
    hide IntText;
    var text := AddressText(a);
    if a.kind != "" {
      assert text[0] == 'a';
    } else if !Absent(':', a.host) {
      assert text[0] == '[';
    } else {
      assert text[0] == (a.host + ":")[0];
    }
  }

  lemma AllUntyped(tokens: seq<string>, r: seq<HostAddress>)
    requires ParseTokens(tokens) == Returns(r)
    ensures forall i :: 0 <= i < |r| ==> r[i].kind == ""
  {
    hide ParseTokens, ParseToken;
    ParseTokensIff(tokens, r);
    forall i | 0 <= i < |r| ensures r[i].kind == "" {
      TokenUntyped(tokens[i]);
    }
  }

  /** No list with a typed address is read from its printed form. */
  lemma PrintedUntyped(list: seq<HostAddress>, r: seq<HostAddress>)
    requires list != [] && ParseTokens(Fields(Trim(ListText(list)), ',')) == Returns(r) && |r| == |list|
    ensures forall i :: 0 <= i < |list| ==> list[i].kind == ""
  {
    hide ParseTokens, ParseToken, Fields, Trim, LTrim, AddressText;
    var tokens := Fields(Trim(ListText(list)), ',');
    ParseTokensIff(tokens, r);
    TokensAreTexts(list);
    forall i | 0 <= i < |list| ensures list[i].kind == "" {
      var token := tokens[i];
      assert ParseToken(token).Returns?;
      assert token == if i == 0 then LTrim(AddressText(list[0])) else AddressText(list[i]);
      if list[i].kind != "" {
        TypedUnread(list[i]);
        NotTrimmed(list[i]);
      }
    }
  }

  /** Marking master and slaves adds nothing that could repair a misreading. */
  lemma ParseIffTokens(list: seq<HostAddress>, replication: bool)
    requires list != []
    ensures Parse(ListText(list), replication) == Returns(if replication then Typed(list) else list)
       <==> ParseTokens(Fields(Trim(ListText(list)), ',')) == Returns(list)
  {
    hide Fields, Trim, ParseTokens, Typed, ListText;
    TextNotEmpty(list);
    var tokens := Fields(Trim(ListText(list)), ',');
    var r := ParseTokens(tokens);
    if r.Returns? && Typed(r.value) == Typed(list) {
      AllUntyped(tokens, r.value);
      PrintedUntyped(list, r.value);
      TypedInjective(r.value, list);
    }
  }

  lemma TextNotEmpty(list: seq<HostAddress>)
    requires list != []
    ensures ListText(list) != ""
  {
    TextEnds(list[|list| - 1]);
    JoinEnd(Texts(list), ',');
  }

  lemma CommaFreeIff(a: HostAddress)
    requires a.kind == ""
    ensures Absent(',', AddressText(a)) <==> Absent(',', a.host)
  {
    hide IntText;
    IntTextPlain(a.port);
    var text := AddressText(a);
    var skip := if Absent(':', a.host) then 0 else 1;
    assert text[skip..skip + |a.host|] == a.host;
    if Absent(',', text) {
      forall i | 0 <= i < |a.host| ensures a.host[i] != ',' {
        assert text[skip + i] == a.host[i];
      }
    }
  }

  lemma ReadableParses(list: seq<HostAddress>)
    requires Ports(list) && Readable(list)
    ensures ParseTokens(Fields(Trim(ListText(list)), ',')) == Returns(list)
  {
    hide AddressText, ParseToken, Trim, Fields, ParseTokens, Absent, LTrim, Trimmed;
    TrimList(list);
    NotTrimmed(list[0]);
    assert TrimmedTexts(list) == Texts(list);
    forall i | 0 <= i < |list|
      ensures ParseToken(Texts(list)[i]) == Returns(list[i]) && Absent(',', Texts(list)[i])
    {
      TokenIff(list[i]);
      CommaFreeIff(list[i]);
    }
    FieldsOfJoin(Texts(list), ',');
    ParseTokensIff(Texts(list), list);
  }

  /** A first host that starts with white space is read without it. */
  lemma FirstTrimmed(a: HostAddress)
    requires Int32(a.port) && a.kind == "" && ParseToken(LTrim(AddressText(a))) == Returns(a)
    ensures !Trimmed(a.host)
  {
    hide IntText, ParseToken, IsSpace;
    if Trimmed(a.host) {
      PlainText(a);
      LTrimHost(a.host);
      LTrimHost(a.host[1..]);
      var g := LTrim(a.host);
      assert LTrim(AddressText(a)) == g + ":" + IntText(a.port);
      ParsedHost(g, a.port, a);
    }
  }

  lemma ParsedIsReadable(list: seq<HostAddress>)
    requires Ports(list) && list != []
    requires ParseTokens(Fields(Trim(ListText(list)), ',')) == Returns(list)
    ensures Readable(list)
  {
    hide AddressText, ParseToken, Trim, Fields, ParseTokens, LTrim, Absent, ReadBack, Trimmed;
    var texts := TrimmedTexts(list);
    ParseTokensIff(Fields(Trim(ListText(list)), ','), list);
    TokensAreTexts(list);
    PrintedUntyped(list, list);
    FirstTrimmed(list[0]);
    NotTrimmed(list[0]);
    forall i | 0 <= i < |list| ensures Absent(',', list[i].host) && ReadBack(list[i]) {
      assert texts[i] == AddressText(list[i]);
      CommaFreeIff(list[i]);
      TokenIff(list[i]);
    }
  }

  /** Parsing undoes printing exactly for the readable lists, in and out of replication mode. */
  lemma ListRoundTripIff(list: seq<HostAddress>, replication: bool)
    requires Ports(list)
    ensures Parse(ListText(list), replication) == Returns(if replication then Typed(list) else list) <==> Readable(list)
  {
    hide ParseTokens, Typed, Fields, Trim;
    if list != [] {
      ParseIffTokens(list, replication);
      if Readable(list) {
        ReadableParses(list);
      } else if ParseTokens(Fields(Trim(ListText(list)), ',')) == Returns(list) {
        ParsedIsReadable(list);
      }
    }
  }

  /** The odd host out: it ends in its only bracket, and has the default port. */
  lemma BracketExample()
    ensures ParseToken(AddressText(HostAddress("a:]", 3306, ""))) == Returns(HostAddress("a:]", 3306, ""))
    ensures ParseToken(AddressText(HostAddress("::1", 3306, ""))) != Returns(HostAddress("::1", 3306, ""))
  {
    hide ParseToken, AddressText;
    var a, b := HostAddress("a:]", 3306, ""), HostAddress("::1", 3306, "");
    assert a.host[1] == ':' && a.host[..2] == "a:" && b.host[0] == ':';
    TokenIff(a);
    TokenIff(b);
  }
}
