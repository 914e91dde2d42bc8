/** Host lists as people write them: with ports, or bare where the port is the default one; and the other forms that
    `HostAddress::parse` takes. */
module HostSpellings {
  import opened Text
  import opened Hosts

  // ---------------------------------------------------------------- numbers

  lemma {:induction false} DigitPrefixStops(digits: string, rest: string)
    requires AllDigits(digits) && (rest != "" ==> !IsDigit(rest[0]))
    ensures DigitPrefix(digits + rest) == digits
  {
    if digits == "" {
      assert digits + rest == rest;
    } else {
      assert (digits + rest)[1..] == digits[1..] + rest;
      DigitPrefixStops(digits[1..], rest);
    }
  }

  lemma {:induction false} LTrimSpaces(indent: string, s: string)
    requires AllSpaces(indent) && s != "" && !IsSpace(s[0])
    ensures LTrim(indent + s) == s
  {
    if indent == "" {
      assert indent + s == s;
    } else {
      assert (indent + s)[1..] == indent[1..] + s;
      LTrimSpaces(indent[1..], s);
    }
  }

  /** `stoi` passes over white space, takes a sign and reads up to the first character that is no digit. */
  lemma StoIReads(indent: string, sign: string, n: nat, rest: string)
    requires AllSpaces(indent) && (sign == "" || sign == "+" || sign == "-") && (rest != "" ==> !IsDigit(rest[0]))
    ensures var v := if sign == "-" then 0 - n else n as int;
            StoI(indent + (sign + Decimal(n) + rest)) == if -0x8000_0000 <= v < 0x8000_0000 then Some(v) else None
  {
    hide Decimal, Value, LTrim;
    var digits := Decimal(n);
    var s := sign + digits + rest;
    assert s[0] == (sign + digits)[0] && IsDigit(digits[0]);
    LTrimSpaces(indent, s);
    DigitPrefixStops(digits, rest);
    ValueOfDecimal(n);
    if sign == "" {
      assert s == digits + rest;
    } else {
      assert s[1..] == digits + rest;
    }
  }

  /** Text that does not start with a number is refused. */
  lemma StoIRefuses(s: string)
    requires s == "" || (!IsSpace(s[0]) && !IsDigit(s[0]) && s[0] != '+' && s[0] != '-')
    ensures StoI(s) == None
  {
  }

  // ---------------------------------------------------------------- single addresses

  /** The host alone: read back exactly if the port is 3306, the host is not empty, and it is nothing else. */
  lemma BareTokenIff(a: HostAddress)
    ensures ParseToken(a.host) == Returns(a)
       <==> a.kind == "" && a.port == 3306 && a.host != "" && Absent(':', a.host) && !Misread(a.host)
  {
    hide StoI;
    var h := a.host;
    if ParseToken(h) == Returns(a) {
      ParsedNoLonger(h, a);
    }
    if h != "" && !Misread(h) {
      assert h[0] != '[' by { assert h[0] == '[' ==> "[" <= h; }
    }
  }

  lemma FirstFieldShort(s: string, sep: char)
    ensures |Fields(s, sep)[0]| <= |s|
    ensures !Absent(sep, s) ==> |Fields(s, sep)[0]| < |s|
  {
    if s != "" {
      FirstFieldShort(s[1..], sep);
      if !Absent(sep, s) && s[0] != sep {
        assert exists i :: 0 <= i < |s[1..]| && s[1..][i] == sep;
      }
    }
  }

  /** A parsed host is no longer than its text, and shorter unless the text is a bare host. */
  lemma ParsedNoLonger(token: string, b: HostAddress)
    requires ParseToken(token) == Returns(b)
    ensures |b.host| <= |token| && b.kind == ""
    ensures token != "" && (Misread(token) || !Absent(':', token)) ==> |b.host| < |token|
  {
    hide StoI, Find, CStr, Trim, Lower;
    FirstFieldShort(token, ':');
    TokenUntyped(token);
    if "address=" <= token {
      ParametersReturn(token);
    } else if token != "" && token[0] == '[' {
      BracketedShort(token, b);
    } else {
      assert token != "" ==> !("[" <= token);
    }
  }

  lemma BracketedShort(token: string, b: HostAddress)
    requires token != "" && token[0] == '[' && ParseBracketed(token) == Returns(b)
    ensures |b.host| < |token|
  {
    hide StoI, Find, CStr;
    match Find(token, "]", 0)
    case None => CStrOf(token[1..]);
    case Some(i) => CStrOf(token[1..i + 1]);
  }

  /** What follows a second colon is ignored. */
  lemma SecondColon(host: string, port: int, rest: string)
    requires Absent(':', host) && host != "" && !Misread(host) && Int32(port)
    ensures ParseToken(host + ":" + (IntText(port) + ":" + rest)) == Returns(HostAddress(host, port, ""))
  {
    hide StoI, IntText, Fields;
    var text := host + ":" + (IntText(port) + ":" + rest);
    IntTextPlain(port);
    FieldsOfFirst(host, IntText(port) + ":" + rest, ':');
    FieldsOfFirst(IntText(port), rest, ':');
    StoIOfIntText(port);
    AddressPrefix(host, IntText(port) + ":" + rest);
    assert text[|host|] == ':' && text[0] == host[0];
    assert !("[" <= host);
  }

  /** Without a number after its colon an address is refused. */
  lemma NoNumber(host: string, c: char, rest: string)
    requires Absent(':', host) && !Misread(host)
    requires !IsSpace(c) && !IsDigit(c) && c != '+' && c != '-' && c != ':' && Absent(':', rest)
    ensures ParseToken(host + ":" + ([c] + rest)) == Throws
  {
    hide StoI, Fields;
    var text := host + ":" + ([c] + rest);
    FieldsOfFirst(host, [c] + rest, ':');
    FieldsOfAbsent([c] + rest, ':');
    StoIRefuses([c] + rest);
    AddressPrefix(host, [c] + rest);
    assert text[|host|] == ':' && text != "";
    assert host != "" ==> text[0] == host[0];
    assert !("[" <= host);
  }

  /** A bracketed host keeps its closing bracket; a port after it is read. */
  lemma BracketPort(h: string, port: int)
    requires Absent(']', h) && Absent('\0', h) && Int32(port)
    ensures ParseToken("[" + h + "]:" + IntText(port)) == Returns(HostAddress(h + "]", port, ""))
    ensures ParseToken("[" + h + "]") == Returns(HostAddress(h + "]", 3306, ""))
    ensures ParseToken("[" + h) == Returns(HostAddress(h, 3306, ""))
  {
    BracketWithPort(h, port);
    BracketAlone(h);
    BracketOpen(h);
  }

  lemma BracketWithPort(h: string, port: int)
    requires Absent(']', h) && Absent('\0', h) && Int32(port)
    ensures ParseToken("[" + h + "]:" + IntText(port)) == Returns(HostAddress(h + "]", port, ""))
  {
    hide StoI, IntText, Find, CStr, Fields;
    var text := "[" + h + "]:" + IntText(port);
    BracketFound(h, ":" + IntText(port));
    assert text == "[" + h + "]" + (":" + IntText(port));
    var i := |h| + 1;
    assert text[0] == '[' && text[i + 1] == ':';
    assert text[1..i + 1] == h + "]" && text[i + 2..] == IntText(port);
    assert CStr(h + "]") == h + "]" by { assert Absent('\0', h + "]"); }
    IntTextNoNul(port);
    StoIOfIntText(port);
  }

  lemma BracketAlone(h: string)
    requires Absent(']', h) && Absent('\0', h)
    ensures ParseToken("[" + h + "]") == Returns(HostAddress(h + "]", 3306, ""))
  {
    hide StoI, Find, CStr, Fields;
    var text := "[" + h + "]";
    BracketFound(h, "");
    assert text == "[" + h + "]" + "";
    assert text[0] == '[' && text[1..|h| + 2] == h + "]";
    assert CStr(h + "]") == h + "]" by { assert Absent('\0', h + "]"); }
  }

  lemma BracketOpen(h: string)
    requires Absent(']', h) && Absent('\0', h)
    ensures ParseToken("[" + h) == Returns(HostAddress(h, 3306, ""))
  {
    hide StoI, CStr, Fields, Find;
    var text := "[" + h;
    assert text[0] == '[' && text[1..] == h;
    forall i: nat ensures !MatchesAt(text, "]", i) {
      if i < |text| {
        assert text[i..i + 1] == [text[i]];
        assert i > 0 ==> text[i] == h[i - 1];
      }
    }
    assert CStr(h) == h;
  }

  lemma BracketFound(h: string, rest: string)
    requires Absent(']', h)
    ensures Find("[" + h + "]" + rest, "]", 0) == Some(|h| + 1)
  {
    hide Find;
    var text := "[" + h + "]" + rest;
    forall i | 0 <= i < |h| + 1 ensures text[i] != ']' {
      assert i > 0 ==> text[i] == h[i - 1];
    }
    assert text[|h| + 1] == ']';
    FindChar(text, ']', 0, |h| + 1);
  }

  lemma IntTextNoNul(port: int)
    ensures CStr(IntText(port)) == IntText(port)
  {
    hide Decimal, CStr;
    var s := Decimal(if port < 0 then -port else port);
    assert forall i :: 0 <= i < |s| ==> IsDigit(s[i]);
    assert Absent('\0', IntText(port));
  }

  // ---------------------------------------------------------------- parameters

  lemma FindFirst(a: string, c: char, b: string)
    requires Absent(c, a)
    ensures Find(a + [c] + b, [c], 0) == Some(|a|)
  {
    hide Find;
    var text := a + [c] + b;
    forall i | 0 <= i < |a| ensures text[i] != c {
      assert text[i] == a[i];
    }
    FindChar(text, c, 0, |a|);
  }

  lemma FindAfter(a: string, body: string, c: char, b: string)
    requires Absent(c, body)
    ensures Find(a + body + [c] + b, [c], |a|) == Some(|a| + |body|)
  {
    hide Find;
    var text := a + body + [c] + b;
    forall i | |a| <= i < |a| + |body| ensures text[i] != c {
      assert text[i] == body[i - |a|];
    }
    FindChar(text, c, |a|, |a| + |body|);
  }

  /** The first pair of parentheses decides. */
  lemma FirstPair(head: string, body: string, rest: string)
    requires Absent('(', head) && Absent(')', body)
    ensures var text := head + "(" + body + ")" + rest;
            Find(text, "(", 0) == Some(|head|) && Find(text, ")", |head| + 1) == Some(|head| + 1 + |body|)
            && text[|head| + 1..|head| + 1 + |body|] == body
  {
    hide Find, Absent;
    Regroup(head + "(", body + ")", rest);
    Regroup(head + "(", body, ")");
    Regroup(head + "(", body, ")" + rest);
    FindFirst(head, '(', body + ")" + rest);
    FindAfter(head + "(", body, ')', rest);
    Inside(head + "(", body, ")" + rest);
    Regroup(head + "(" + body, ")", rest);
  }

  lemma Regroup(a: string, b: string, c: string)
    ensures a + (b + c) == a + b + c
  {
  }

  lemma Inside(a: string, b: string, c: string)
    ensures (a + b + c)[|a|..|a| + |b|] == b
  {
  }

  lemma PairFields(key: string, value: string)
    requires Absent('=', key) && Absent('=', value)
    ensures Fields(key + "=" + value, '=') == [key, value]
  {
    FieldsOfFirst(key, value, '=');
    FieldsOfAbsent(value, '=');
  }

  /** A parameter list in which the first parameter is a good one is never left; a bad port is refused. */
  lemma ParametersOutcome(head: string, key: string, value: string, rest: string)
    requires "address=" <= head && Absent('(', head)
    requires Absent('=', key) && Absent('=', value) && Absent(')', key) && Absent(')', value)
    requires key != "" && !IsSpace(key[0]) && value != "" && !IsSpace(value[|value| - 1])
    ensures ParseToken(head + "(" + (key + "=" + value) + ")" + rest)
         == if Lower(key) == "port" && StoI(value) == None then Throws else Hangs
  {
    hide StoI, Find, Trim, Fields, Lower;
    var body := key + "=" + value;
    var text := head + "(" + body + ")" + rest;
    assert Absent(')', body);
    FirstPair(head, body, rest);
    TrimIndented("", body);
    assert "" + body == body;
    PairFields(key, value);
    assert "address=" <= text;
  }

  /** Without a parenthesis the address is empty. */
  lemma NoParameters(head: string)
    requires "address=" <= head && Absent('(', head)
    ensures ParseToken(head) == Returns(HostAddress("", 3306, ""))
  {
    hide StoI, Trim, Fields, Lower, Find;
    forall i: nat ensures !MatchesAt(head, "(", i) {
      if i < |head| {
        assert head[i..i + 1] == [head[i]];
      }
    }
  }

  /** With an open one only it is refused. */
  lemma NoPair(head: string, body: string)
    requires "address=" <= head && Absent('(', head) && Absent(')', body)
    ensures ParseToken(head + "(" + body) == Throws
  {
    hide StoI, Trim, Fields, Lower, Find, Absent;
    var text := head + "(" + body;
    assert "address=" <= text;
    FindFirst(head, '(', body);
    NoneAfter(head + "(", body, ')');
  }

  lemma NoneAfter(a: string, b: string, c: char)
    requires Absent(c, b)
    ensures Find(a + b, [c], |a|) == None
  {
    hide Find;
    var text := a + b;
    forall i: nat | |a| <= i ensures !MatchesAt(text, [c], i) {
      if i < |text| {
        assert text[i..i + 1] == [text[i]] && text[i] == b[i - |a|];
      }
    }
  }

  /** Keys count in either case. */
  lemma LowerExample()
    ensures Lower("PORT") == "port" && Lower("Host") == "host"
  {
  }

  // ---------------------------------------------------------------- lists, with ports or bare

  /** An address as written: bare, or as it is printed. */
  function Written(a: HostAddress, bare: bool): string {
    if bare then a.host else AddressText(a)
  }

  function WrittenTexts(list: seq<HostAddress>, bare: seq<bool>): (r: seq<string>)
    requires |bare| == |list|
    ensures |r| == |list|
  {
    seq(|list|, i requires 0 <= i < |list| => Written(list[i], bare[i]))
  }

  lemma {:induction false} LTrimBefore(a: string, c: char, b: string)
    requires !IsSpace(c)
    ensures LTrim(a + [c] + b) == LTrim(a) + [c] + b
  {
    var s := a + [c] + b;
    if a == "" {
      assert s == [c] + b;
    } else if IsSpace(a[0]) {
      assert s[1..] == a[1..] + [c] + b;
      LTrimBefore(a[1..], c, b);
    }
  }

  lemma {:induction false} RTrimAfter(a: string, c: char, b: string)
    requires !IsSpace(c)
    ensures RTrim(a + [c] + b) == a + [c] + RTrim(b)
  {
    var s := a + [c] + b;
    if b == "" {
      assert s == a + [c];
    } else if IsSpace(b[|b| - 1]) {
      assert s[..|s| - 1] == a + [c] + b[..|b| - 1];
      RTrimAfter(a, c, b[..|b| - 1]);
    }
  }

  /** The parts with their outer white space gone: that before the first and that after the last. */
  function Outer(parts: seq<string>): (r: seq<string>)
    requires parts != []
    ensures |r| == |parts|
  {
    var left := parts[0 := LTrim(parts[0])];
    left[|left| - 1 := RTrim(left[|left| - 1])]
  }

  lemma LTrimParts(parts: seq<string>)
    requires |parts| > 1
    ensures LTrim(Join(parts, ',')) == Join(parts[0 := LTrim(parts[0])], ',')
  {
    hide LTrim;
    var left := parts[0 := LTrim(parts[0])];
    assert left[1..] == parts[1..];
    LTrimBefore(parts[0], ',', Join(parts[1..], ','));
  }

  lemma RTrimParts(parts: seq<string>)
    requires |parts| > 1
    ensures RTrim(Join(parts, ',')) == Join(parts[|parts| - 1 := RTrim(parts[|parts| - 1])], ',')
  {
    hide RTrim, Join;
    var n := |parts| - 1;
    var front := parts[..n];
    JoinAppend(front, parts[n], ',');
    JoinAppend(front, RTrim(parts[n]), ',');
    assert front + [parts[n]] == parts;
    assert front + [RTrim(parts[n])] == parts[n := RTrim(parts[n])];
    RTrimAfter(Join(front, ','), ',', parts[n]);
  }

  lemma TrimParts(parts: seq<string>)
    requires parts != []
    ensures Trim(Join(parts, ',')) == Join(Outer(parts), ',')
  {
    hide LTrim, RTrim;
    if |parts| == 1 {
      assert parts == [parts[0]] && Outer(parts) == [Trim(parts[0])];
    } else {
      hide Join;
      LTrimParts(parts);
      RTrimParts(parts[0 := LTrim(parts[0])]);
    }
  }

  /** What parsing needs of an address in such a list, and of where it stands. */
  predicate AddressReadable(a: HostAddress, bare: bool, first: bool, last: bool) {
    && Absent(',', a.host)
    && (if bare then a.host != "" && Absent(':', a.host) && !Misread(a.host) else ReadBack(a))
    && (first ==> !Trimmed(a.host))
    && (last && bare && a.host != "" ==> !IsSpace(a.host[|a.host| - 1]))
  }

  ghost predicate WrittenReadable(list: seq<HostAddress>, bare: seq<bool>)
    requires |bare| == |list|
  {
    list != []
    && forall i :: 0 <= i < |list| ==> AddressReadable(list[i], bare[i], i == 0, i == |list| - 1)
  }

  predicate BareFits(list: seq<HostAddress>, bare: seq<bool>) {
    |bare| == |list| && forall i :: 0 <= i < |list| && bare[i] ==> list[i].kind == "" && list[i].port == 3306
  }

  lemma TokensAreOuter(texts: seq<string>)
    requires texts != [] && |Fields(Trim(Join(texts, ',')), ',')| == |texts|
    ensures Fields(Trim(Join(texts, ',')), ',') == Outer(texts)
    ensures forall i :: 0 <= i < |texts| ==> Absent(',', Outer(texts)[i])
  {
    hide Trim, Fields, Absent, Outer;
    TrimParts(texts);
    JoinedFields(Outer(texts), ',');
    FieldsOfJoin(Outer(texts), ',');
  }

  lemma {:induction false} LTrimIs(s: string)
    ensures |LTrim(s)| <= |s| && (LTrim(s) == s <==> s == "" || !IsSpace(s[0]))
    ensures |LTrim(s)| == |s| ==> LTrim(s) == s
  {
    if s != "" && IsSpace(s[0]) {
      LTrimIs(s[1..]);
    }
  }

  lemma {:induction false} RTrimIs(s: string)
    ensures |RTrim(s)| <= |s| && (RTrim(s) == s <==> s == "" || !IsSpace(s[|s| - 1]))
    ensures |RTrim(s)| == |s| ==> RTrim(s) == s
  {
    if s != "" && IsSpace(s[|s| - 1]) {
      RTrimIs(s[..|s| - 1]);
    }
  }

  /** White space that is trimmed from the text of address `i`. */
  function OuterText(text: string, first: bool, last: bool): string {
    var left := if first then LTrim(text) else text;
    if last then RTrim(left) else left
  }

  lemma OuterAt(parts: seq<string>, i: nat)
    requires i < |parts|
    ensures Outer(parts)[i] == OuterText(parts[i], i == 0, i == |parts| - 1)
  {
    hide LTrim, RTrim;
  }

  lemma OuterUnchanged(text: string, first: bool, last: bool)
    ensures |OuterText(text, first, last)| <= |text|
    ensures OuterText(text, first, last) == text
       <==> text == "" || ((first ==> !IsSpace(text[0])) && (last ==> !IsSpace(text[|text| - 1])))
    ensures |OuterText(text, first, last)| == |text| ==> OuterText(text, first, last) == text
  {
    hide LTrim, RTrim, IsSpace;
    LTrimIs(text);
    var left := if first then LTrim(text) else text;
    RTrimIs(left);
  }

  /** A bare host is read back from its trimmed text exactly if nothing was trimmed and it is good. */
  lemma BareReadIff(a: HostAddress, first: bool, last: bool)
    requires a.kind == "" && a.port == 3306
    ensures ParseToken(OuterText(a.host, first, last)) == Returns(a)
       <==> a.host != "" && Absent(':', a.host) && !Misread(a.host)
            && (first ==> !IsSpace(a.host[0])) && (last ==> !IsSpace(a.host[|a.host| - 1]))
  {
    hide ParseToken, OuterText, Misread, Absent, IsSpace;
    OuterUnchanged(a.host, first, last);
    BareTokenIff(a);
    var text := OuterText(a.host, first, last);
    if ParseToken(text) == Returns(a) {
      ParsedNoLonger(text, a);
    }
  }

  /** A printed address likewise; only its front can be trimmed. */
  lemma PrintedReadIff(a: HostAddress, first: bool, last: bool)
    requires Int32(a.port)
    ensures ParseToken(OuterText(AddressText(a), first, last)) == Returns(a)
       <==> ReadBack(a) && (first ==> !Trimmed(a.host))
  {
    hide ParseToken, AddressText, LTrim, RTrim, ReadBack, Trimmed, IsSpace;
    var text := AddressText(a);
    TextEnds(a);
    RTrimIs(text);
    LTrimEnd(text);
    RTrimIs(LTrim(text));
    assert OuterText(text, first, last) == if first then LTrim(text) else text;
    TokenIff(a);
    if first {
      if a.kind != "" || !Trimmed(a.host) {
        NotTrimmed(a);
      } else if ParseToken(LTrim(text)) == Returns(a) {
        FirstTrimmed(a);
      }
    }
    assert a.kind != "" ==> !ReadBack(a) by { ReadBackUntyped(a); }
  }

  lemma ReadBackUntyped(a: HostAddress)
    ensures ReadBack(a) ==> a.kind == ""
  {
  }

  lemma LTrimEnd(s: string)
    requires s != "" && !IsSpace(s[|s| - 1])
    ensures LTrim(s) != "" && !IsSpace(LTrim(s)[|LTrim(s)| - 1])
  {
    LTrimPrefix(s, "");
  }

  lemma WrittenReadIff(a: HostAddress, bare: bool, first: bool, last: bool)
    requires Int32(a.port) && (bare ==> a.kind == "" && a.port == 3306)
    ensures var text := OuterText(Written(a, bare), first, last);
            ParseToken(text) == Returns(a) && Absent(',', text) <==> AddressReadable(a, bare, first, last)
    ensures AddressReadable(a, bare, first, last) ==> OuterText(Written(a, bare), first, last) == Written(a, bare)
  {
    hide ParseToken, OuterText, AddressText, ReadBack, Misread;
    if bare {
      BareReadIff(a, first, last);
      OuterUnchanged(a.host, first, last);
    } else {
      PrintedReadIff(a, first, last);
      PrintedOuter(a, first, last);
      ReadBackUntyped(a);
      if a.kind == "" {
        CommaFreeIff(a);
      }
    }
  }

  lemma PrintedOuter(a: HostAddress, first: bool, last: bool)
    ensures a.kind != "" || (first ==> !Trimmed(a.host)) ==> OuterText(AddressText(a), first, last) == AddressText(a)
  {
    hide AddressText, LTrim, RTrim, Trimmed, IsSpace;
    var text := AddressText(a);
    TextEnds(a);
    RTrimIs(text);
    if a.kind != "" || (first && !Trimmed(a.host)) {
      NotTrimmed(a);
    }
  }

  lemma WrittenUntyped(list: seq<HostAddress>, bare: seq<bool>, r: seq<HostAddress>)
    requires BareFits(list, bare) && list != [] && |r| == |list|
    requires ParseTokens(Outer(WrittenTexts(list, bare))) == Returns(r)
    ensures forall i :: 0 <= i < |list| ==> list[i].kind == ""
  {
    hide ParseTokens, ParseToken, Outer, OuterText, AddressText;
    var texts := WrittenTexts(list, bare);
    ParseTokensIff(Outer(texts), r);
    forall i | 0 <= i < |list| ensures list[i].kind == "" {
      var token := Outer(texts)[i];
      assert ParseToken(token).Returns?;
      OuterAt(texts, i);
      if !bare[i] && list[i].kind != "" {
        PrintedOuter(list[i], i == 0, i == |texts| - 1);
        TypedUnread(list[i]);
      }
    }
  }

  /** Whatever the parse of such a list returns, marking master and slaves repairs nothing. */
  lemma WrittenParseIff(list: seq<HostAddress>, bare: seq<bool>, replication: bool)
    requires BareFits(list, bare) && list != []
    ensures var texts := WrittenTexts(list, bare);
            Parse(Join(texts, ','), replication) == Returns(if replication then Typed(list) else list)
            <==> Join(texts, ',') != "" && |Fields(Trim(Join(texts, ',')), ',')| == |list|
                 && ParseTokens(Outer(texts)) == Returns(list)
  {
    hide ParseTokens, Fields, Trim, Outer, Typed, WrittenTexts;
    var texts := WrittenTexts(list, bare);
    var tokens := Fields(Trim(Join(texts, ',')), ',');
    var r := ParseTokens(tokens);
    if r.Returns? && (Typed(r.value) == Typed(list) || r.value == list) {
      ParseTokensIff(tokens, r.value);
      TokensAreOuter(texts);
      AllUntyped(tokens, r.value);
      WrittenUntyped(list, bare, r.value);
      if Typed(r.value) == Typed(list) {
        TypedInjective(r.value, list);
      }
    }
    if |tokens| == |list| {
      TokensAreOuter(texts);
    }
  }

  /** Lists in which each address is written with its port or, where that is 3306, bare: parsing gives the list back, in
      and out of replication mode, exactly if every address can be read where it stands. */
  lemma WrittenRoundTripIff(list: seq<HostAddress>, bare: seq<bool>, replication: bool)
    requires Ports(list) && BareFits(list, bare)
    ensures var r := Parse(Join(WrittenTexts(list, bare), ','), replication);
            r == Returns(if replication then Typed(list) else list) <==> WrittenReadable(list, bare)
  {
    hide ParseTokens, Typed, Fields, Trim, Outer, AddressReadable;
    if list != [] {
      WrittenParseIff(list, bare, replication);
      if WrittenReadable(list, bare) {
        ReadableWritten(list, bare);
      } else {
        UnreadableWritten(list, bare);
      }
    }
  }

  lemma ReadableWritten(list: seq<HostAddress>, bare: seq<bool>)
    requires Ports(list) && BareFits(list, bare) && WrittenReadable(list, bare)
    ensures var texts := WrittenTexts(list, bare);
            Join(texts, ',') != "" && |Fields(Trim(Join(texts, ',')), ',')| == |list|
            && ParseTokens(Outer(texts)) == Returns(list)
  {
    hide ParseTokens, ParseToken, Fields, Trim, Outer, AddressReadable, OuterText, Written, Absent;
    var texts := WrittenTexts(list, bare);
    forall i | 0 <= i < |list|
      ensures Outer(texts)[i] == texts[i] && ParseToken(texts[i]) == Returns(list[i]) && Absent(',', texts[i])
    {
      assert AddressReadable(list[i], bare[i], i == 0, i == |list| - 1);
      OuterAt(texts, i);
      WrittenReadIff(list[i], bare[i], i == 0, i == |list| - 1);
    }
    assert Outer(texts) == texts;
    TrimParts(texts);
    FieldsOfJoin(texts, ',');
    ParseTokensIff(texts, list);
    if Join(texts, ',') == "" {
      assert Fields(Trim(""), ',') == [""] by { EmptyFields(); }
      EmptyToken();
    }
  }

  lemma EmptyFields()
    ensures Fields(Trim(""), ',') == [""]
  {
  }

  lemma EmptyToken()
    ensures ParseToken("") == Throws
  {
  }

  lemma UnreadableWritten(list: seq<HostAddress>, bare: seq<bool>)
    requires Ports(list) && BareFits(list, bare) && list != [] && !WrittenReadable(list, bare)
    ensures var texts := WrittenTexts(list, bare);
            !(|Fields(Trim(Join(texts, ',')), ',')| == |list| && ParseTokens(Outer(texts)) == Returns(list))
  {
    hide ParseTokens, ParseToken, Fields, Trim, Outer, AddressReadable, OuterText, Written, Absent;
    var texts := WrittenTexts(list, bare);
    var i :| 0 <= i < |list| && !AddressReadable(list[i], bare[i], i == 0, i == |list| - 1);
    WrittenReadIff(list[i], bare[i], i == 0, i == |list| - 1);
    OuterAt(texts, i);
    ParseTokensIff(Outer(texts), list);
    if |Fields(Trim(Join(texts, ',')), ',')| == |list| {
      TokensAreOuter(texts);
    }
  }

  /** The most ordinary host of a URL, and a list of two. */
  lemma BareExample()
    ensures Parse("db1", false) == Returns([HostAddress("db1", 3306, "")])
    ensures Parse("db1,db2:3307", true)
         == Returns([HostAddress("db1", 3306, "master"), HostAddress("db2", 3307, "slave")])
  {
    BareOne();
    BareTwo();
  }

  /** A short name of letters and digits is readable anywhere. */
  lemma ShortName(a: HostAddress, bare: bool, first: bool, last: bool)
    requires a.kind == "" && 0 < |a.host| < 8 && Absent(',', a.host) && Absent(':', a.host)
    requires a.host[0] != '[' && !IsSpace(a.host[0]) && !IsSpace(a.host[|a.host| - 1])
    ensures AddressReadable(a, bare, first, last)
  {
    assert !("[" <= a.host) && !("address=" <= a.host);
  }

  lemma BareOne()
    ensures Parse("db1", false) == Returns([HostAddress("db1", 3306, "")])
  {
    hide Parse, AddressReadable;
    var list, bare := [HostAddress("db1", 3306, "")], [true];
    assert WrittenTexts(list, bare) == ["db1"];
    assert Join(["db1"], ',') == "db1";
    ShortName(list[0], true, true, true);
    WrittenRoundTripIff(list, bare, false);
  }

  lemma BareTwo()
    ensures Parse("db1,db2:3307", true)
         == Returns([HostAddress("db1", 3306, "master"), HostAddress("db2", 3307, "slave")])
  {
    hide Parse, AddressReadable, IntText;
    var list, bare := [HostAddress("db1", 3306, ""), HostAddress("db2", 3307, "")], [true, false];
    PortText();
    assert "db2" + ":" + "3307" == "db2:3307";
    assert Absent(':', "db2");
    assert Written(list[1], false) == "db2:3307";
    assert WrittenTexts(list, bare) == ["db1", "db2:3307"];
    assert Join(["db1", "db2:3307"], ',') == "db1,db2:3307" by {
      assert ["db1", "db2:3307"][1..] == ["db2:3307"];
      assert "db1" + [','] + "db2:3307" == "db1,db2:3307";
    }
    ShortName(list[0], true, true, false);
    ShortName(list[1], false, false, true);
    WrittenRoundTripIff(list, bare, true);
    assert Typed(list) == [HostAddress("db1", 3306, "master"), HostAddress("db2", 3307, "slave")];
  }

  lemma PortText()
    ensures IntText(3307) == "3307"
  {
    assert Decimal(3) == "3" && Decimal(33) == "33" && Decimal(330) == "330" && Decimal(3307) == "3307";
  }
}
