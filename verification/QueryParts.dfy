/** Splitting a statement at its placeholders: the lexer of `ClientPrepareResult::parameterParts`. */
module QueryParts {
  import opened Text
  import Quoting
  import ClientInfo

  datatype Mode = Normal | SqlString | SlashStarComment | Escape | EOLComment | Backtick

  datatype Lexer = Lexer(mode: Mode, last: char, singleQuotes: bool)

  const BEGIN := Lexer(Normal, '\0', false)

  function NextMode(l: Lexer, c: char, noBackslash: bool): Mode {
    match c
    case '*' => if l.mode == Normal && l.last == '/' then SlashStarComment else l.mode
    case '/' =>
      if l.mode == SlashStarComment && l.last == '*' then Normal
      else if l.mode == Normal && l.last == '/' then EOLComment
      else l.mode
    case '#' => if l.mode == Normal then EOLComment else l.mode
    case '-' => if l.mode == Normal && l.last == '-' then EOLComment else l.mode
    case '\n' => if l.mode == EOLComment then Normal else l.mode
    case '"' =>
      if l.mode == Normal then SqlString
      else if l.mode == SqlString && !l.singleQuotes then Normal
      else if l.mode == Escape && !l.singleQuotes then SqlString
      else l.mode
    case '\'' =>
      if l.mode == Normal then SqlString
      else if l.mode == SqlString && l.singleQuotes then Normal
      else if l.mode == Escape && l.singleQuotes then SqlString
      else l.mode
    case '\\' => if !noBackslash && l.mode == SqlString then Escape else l.mode
    case '`' => if l.mode == Backtick then Normal else if l.mode == Normal then Backtick else l.mode
    case _ => l.mode
  }

  /** One character of the loop. */
  function Next(l: Lexer, c: char, noBackslash: bool): Lexer {
    if l.mode == Escape && !((c == '\'' && l.singleQuotes) || (c == '"' && !l.singleQuotes)) then
      l.(mode := SqlString, last := c)
    else
      Lexer(NextMode(l, c, noBackslash), c,
            if l.mode == Normal && (c == '"' || c == '\'') then c == '\'' else l.singleQuotes)
  }

  function After(l: Lexer, s: string, noBackslash: bool): Lexer
    decreases s
  {
    if s == "" then l else After(Next(l, s[0], noBackslash), s[1..], noBackslash)
  }

  predicate Placeholder(l: Lexer, c: char) {
    c == '?' && l.mode == Normal
  }

  /** The text between placeholders, for a lexer that starts as `l`. */
  function Slices(l: Lexer, s: string, noBackslash: bool): (r: seq<string>)
    ensures |r| >= 1
    decreases s
  {
    if s == "" then [""]
    else
      var rest := Slices(Next(l, s[0], noBackslash), s[1..], noBackslash);
      if Placeholder(l, s[0]) then [""] + rest else [[s[0]] + rest[0]] + rest[1..]
  }

  function Cut(slices: seq<string>): (r: seq<string>)
    ensures |r| == |slices|
  {
    seq(|slices|, i requires 0 <= i < |slices| => CStr(slices[i]))
  }

  /** `substr` cuts each part at a NUL; a statement without placeholders is kept whole. */
  function Parts(query: string, noBackslash: bool): (r: seq<string>)
    ensures |r| >= 1
  {
    var slices := Slices(BEGIN, query, noBackslash);
    if |slices| == 1 then [query] else Cut(slices)
  }

  /** Two adjoining slice lists, the last slice of one continued by the first of the other. */
  function Glue(a: seq<string>, b: seq<string>): (r: seq<string>)
    requires |a| >= 1 && |b| >= 1
    ensures |r| == |a| + |b| - 1
  {
    a[..|a| - 1] + [a[|a| - 1] + b[0]] + b[1..]
  }

  lemma GlueUnit(a: seq<string>)
    requires |a| >= 1
    ensures Glue(a, [""]) == a && Glue([""], a) == a
  {
    assert a[|a| - 1] + "" == a[|a| - 1] && "" + a[0] == a[0];
  }

  // ---------------------------------------------------------------- laws of the lexer

  lemma {:induction false} AfterConcat(l: Lexer, a: string, b: string, noBackslash: bool)
    ensures After(l, a + b, noBackslash) == After(After(l, a, noBackslash), b, noBackslash)
    decreases a
  {
    if a == "" {
      assert a + b == b;
    } else {
      assert (a + b)[1..] == a[1..] + b;
      AfterConcat(Next(l, a[0], noBackslash), a[1..], b, noBackslash);
    }
  }

  lemma {:induction false} SlicesConcat(l: Lexer, a: string, b: string, noBackslash: bool)
    ensures Slices(l, a + b, noBackslash)
         == Glue(Slices(l, a, noBackslash), Slices(After(l, a, noBackslash), b, noBackslash))
    decreases a
  {
    hide Next, CStr;
    if a == "" {
      assert a + b == b;
      GlueUnit(Slices(l, b, noBackslash));
    } else {
      assert (a + b)[1..] == a[1..] + b;
      SlicesConcat(Next(l, a[0], noBackslash), a[1..], b, noBackslash);
      var rest := Slices(Next(l, a[0], noBackslash), a[1..], noBackslash);
      GlueCons(a[0], rest, Slices(After(l, a, noBackslash), b, noBackslash));
    }
  }

  lemma GlueCons(c: char, a: seq<string>, b: seq<string>)
    requires |a| >= 1 && |b| >= 1
    ensures [""] + Glue(a, b) == Glue([""] + a, b)
    ensures [[c] + Glue(a, b)[0]] + Glue(a, b)[1..] == Glue([[c] + a[0]] + a[1..], b)
  {
    if |a| == 1 {
      assert [c] + (a[0] + b[0]) == [c] + a[0] + b[0];
    }
  }

  // ---------------------------------------------------------------- nothing is lost

  lemma JoinFirst(first: string, rest: seq<string>)
    ensures Join([first] + rest, '?') == first + if rest == [] then "" else "?" + Join(rest, '?')
  {
    assert ([first] + rest)[1..] == rest;
  }

  lemma JoinSkip(parts: seq<string>)
    requires |parts| >= 1
    ensures Join([""] + parts, '?') == "?" + Join(parts, '?')
  {
    hide Join;
    JoinFirst("", parts);
    var text := "?" + Join(parts, '?');
    assert "" + text == text;
  }

  lemma JoinCons(c: char, first: string, rest: seq<string>)
    ensures Join([[c] + first] + rest, '?') == [c] + Join([first] + rest, '?')
  {
    hide Join;
    JoinFirst(first, rest);
    JoinFirst([c] + first, rest);
    var tail := if rest == [] then "" else "?" + Join(rest, '?');
    assert [c] + first + tail == [c] + (first + tail);
  }

  lemma {:induction false} SlicesJoin(l: Lexer, s: string, noBackslash: bool)
    ensures Join(Slices(l, s, noBackslash), '?') == s
    decreases s
  {
    hide Next, Join;
    if s != "" {
      var rest := Slices(Next(l, s[0], noBackslash), s[1..], noBackslash);
      SlicesJoin(Next(l, s[0], noBackslash), s[1..], noBackslash);
      JoinSkip(rest);
      JoinCons(s[0], rest[0], rest[1..]);
      assert rest == [rest[0]] + rest[1..];
      assert s == [s[0]] + s[1..];
    } else {
      JoinOne("");
    }
  }

  lemma JoinOne(s: string)
    ensures Join([s], '?') == s
  {
  }

  lemma {:induction false} JoinCut(slices: seq<string>)
    requires |slices| >= 1
    ensures |Join(Cut(slices), '?')| <= |Join(slices, '?')|
    ensures Join(Cut(slices), '?') == Join(slices, '?') <==> Absent('\0', Join(slices, '?'))
  {
    if |slices| > 1 {
      var rest := slices[1..];
      JoinCut(rest);
      assert Cut(slices)[1..] == Cut(rest);
      var cut, whole := CStr(slices[0]), slices[0];
      var a, b := Join(Cut(rest), '?'), Join(rest, '?');
      assert cut <= whole;
      ConcatEqual(cut, a, whole, b);
      AbsentParts(whole, b);
    }
  }

  lemma ConcatEqual(cut: string, a: string, whole: string, b: string)
    requires cut <= whole && |a| <= |b|
    ensures cut + ['?'] + a == whole + ['?'] + b <==> cut == whole && a == b
  {
    if cut + ['?'] + a == whole + ['?'] + b {
      assert |cut| == |whole|;
      assert a == (cut + ['?'] + a)[|cut| + 1..] == (whole + ['?'] + b)[|whole| + 1..] == b;
    }
  }

  lemma AbsentParts(whole: string, b: string)
    ensures Absent('\0', whole + ['?'] + b) <==> Absent('\0', whole) && Absent('\0', b)
  {
    var t := whole + ['?'] + b;
    if Absent('\0', t) {
      assert forall i :: 0 <= i < |whole| ==> whole[i] == t[i];
      assert forall i :: 0 <= i < |b| ==> b[i] == t[|whole| + 1 + i];
    }
  }

  /** The parts with their question marks are the statement again, exactly when it has no placeholder or no NUL. */
  lemma PartsConserveIff(query: string, noBackslash: bool)
    ensures Join(Parts(query, noBackslash), '?') == query
       <==> |Parts(query, noBackslash)| == 1 || Absent('\0', query)
  {
    hide Slices, Join;
    SlicesJoin(BEGIN, query, noBackslash);
    JoinCut(Slices(BEGIN, query, noBackslash));
    JoinOne(query);
  }

  /** A NUL before a placeholder cuts the part it is in. */
  lemma PartsCutExample()
    ensures Parts("a\0b?", false) == ["a", ""]
  {
    var q := "a\0b?";
    assert Slices(BEGIN, q, false) == ["a\0b", ""] by { SlicesExample(); }
    assert CStr("a\0b") == "a" by { assert "a\0b"[1..] == "\0b" && CStr("\0b") == ""; }
    assert CStr("") == "";
  }

  lemma SlicesExample()
    ensures Slices(BEGIN, "a\0b?", false) == ["a\0b", ""]
  {
    hide Slices, After;
    var code := "a\0b";
    CodeStays(BEGIN, code, false);
    var l := After(BEGIN, code, false);
    OneChar(l, '?', false);
    SlicesConcat(BEGIN, code, "?", false);
    assert code + "?" == "a\0b?";
    assert code + "" == code;
  }

  // ---------------------------------------------------------------- the loop

  method ParameterParts(queryString: string, noBackslash: bool) returns (partList: seq<string>)
    ensures partList == Parts(queryString, noBackslash)
  {
    hide Parts, Cut, Next, CStr, Lexed;
    partList := [];
    ghost var slices: seq<string> := [];
    var l := BEGIN;
    var lastParameterPosition := 0;
    LexedStart(queryString, noBackslash);
    for i := 0 to |queryString|
      invariant 0 <= lastParameterPosition <= i
      invariant partList == Cut(slices)
      invariant slices == [] <==> lastParameterPosition == 0
      invariant Lexed(queryString, noBackslash, i, l, slices, lastParameterPosition)
    {
      LexedStep(queryString, noBackslash, i, l, slices, lastParameterPosition);
      if Placeholder(l, queryString[i]) {
        CutAppend(slices, queryString[lastParameterPosition..i]);
        partList := partList + [CStr(queryString[lastParameterPosition..i])];
        slices := slices + [queryString[lastParameterPosition..i]];
        lastParameterPosition := i + 1;
      }
      l := Next(l, queryString[i], noBackslash);
    }
    LexedEnd(queryString, noBackslash, l, slices, lastParameterPosition);
    if lastParameterPosition == 0 {
      partList := partList + [queryString];
    } else {
      partList := partList + [CStr(queryString[lastParameterPosition..])];
    }
  }

  /** Up to `i` the statement has given `slices` and the text from `from` on. */
  ghost predicate Lexed(query: string, noBackslash: bool, i: nat, l: Lexer, slices: seq<string>, from: nat) {
    from <= i <= |query|
    && Slices(BEGIN, query, noBackslash) == Glue(slices + [query[from..i]], Slices(l, query[i..], noBackslash))
  }

  lemma LexedStart(query: string, noBackslash: bool)
    ensures Lexed(query, noBackslash, 0, BEGIN, [], 0) && Cut([]) == []
  {
    hide Slices, Glue;
    assert query[0..] == query && query[0..0] == "" && [] + [""] == [""];
    GlueUnit(Slices(BEGIN, query, noBackslash));
  }

  lemma LexedStep(query: string, noBackslash: bool, i: nat, l: Lexer, slices: seq<string>, from: nat)
    requires i < |query| && Lexed(query, noBackslash, i, l, slices, from)
    ensures var next := Next(l, query[i], noBackslash);
            if Placeholder(l, query[i]) then Lexed(query, noBackslash, i + 1, next, slices + [query[from..i]], i + 1)
            else Lexed(query, noBackslash, i + 1, next, slices, from)
  {
    hide Slices, Glue, Next;
    SlicesStep(l, query, i, slices, from, noBackslash);
  }

  lemma LexedEnd(query: string, noBackslash: bool, l: Lexer, slices: seq<string>, from: nat)
    requires Lexed(query, noBackslash, |query|, l, slices, from) && (slices == [] <==> from == 0)
    ensures Parts(query, noBackslash) == Cut(slices) + [if from == 0 then query else CStr(query[from..])]
  {
    hide Slices, Glue, CStr;
    SlicesEnd(l, query, noBackslash);
    assert query[from..|query|] == query[from..];
    GlueUnit(slices + [query[from..]]);
    CutAppend(slices, query[from..]);
    assert slices == [] ==> Cut(slices) + [query] == [query];
  }

  lemma CutAppend(slices: seq<string>, last: string)
    ensures Cut(slices + [last]) == Cut(slices) + [CStr(last)]
  {
    hide CStr;
  }

  lemma SlicesEnd(l: Lexer, s: string, noBackslash: bool)
    ensures Slices(l, s[|s|..], noBackslash) == [""]
  {
  }

  lemma SlicesStep(l: Lexer, s: string, i: nat, done: seq<string>, from: nat, noBackslash: bool)
    requires from <= i < |s|
    ensures var now := s[from..i];
            var rest := Slices(Next(l, s[i], noBackslash), s[i + 1..], noBackslash);
            Glue(done + [now], Slices(l, s[i..], noBackslash))
            == if Placeholder(l, s[i]) then Glue(done + [now] + [s[i + 1..i + 1]], rest)
               else Glue(done + [s[from..i + 1]], rest)
  {
    hide Next, Glue;
    assert s[i..][1..] == s[i + 1..];
    var rest := Slices(Next(l, s[i], noBackslash), s[i + 1..], noBackslash);
    assert s[from..i + 1] == s[from..i] + [s[i]] && s[i + 1..i + 1] == "";
    GlueBreak(done, s[from..i], rest);
    GlueChar(done, s[from..i], s[i], rest);
  }

  lemma GlueBreak(done: seq<string>, now: string, rest: seq<string>)
    requires |rest| >= 1
    ensures Glue(done + [now], [""] + rest) == Glue(done + [now] + [""], rest)
  {
    assert now + "" == now && "" + rest[0] == rest[0];
    var a := done + [now] + [""];
    assert a[..|a| - 1] == done + [now];
    assert (done + [now])[..|done|] == done;
  }

  lemma GlueChar(done: seq<string>, now: string, c: char, rest: seq<string>)
    requires |rest| >= 1
    ensures Glue(done + [now], [[c] + rest[0]] + rest[1..]) == Glue(done + [now + [c]], rest)
  {
    assert now + ([c] + rest[0]) == now + [c] + rest[0];
    assert (done + [now])[..|done|] == done == (done + [now + [c]])[..|done|];
  }

  // ---------------------------------------------------------------- statements built from safe pieces

  /** A piece of a statement: text outside quotes and comments, a literal in single or double quotes, a quoted name, a
      comment between slashes and stars, a comment to the end of the line, one that ends the statement without a
      newline, and a placeholder. */
  datatype Piece =
    | Code(text: string)
    | Literal(value: string)
    | DoubleQuoted(value: string)
    | Name(name: string)
    | Block(text: string)
    | LineComment(opener: string, text: string)
    | Trailing(opener: string, text: string)
    | Hole

  predicate PlainCode(s: string) {
    forall i :: 0 <= i < |s| ==> s[i] !in {'\'', '"', '`', '#', '/', '-', '?'}
  }

  /** Each piece of code, where it stands, holds no placeholder of its own and, unless it is the last piece, ends
      outside quotes and comments. `last` is the character before the pieces. */
  ghost predicate Fine(pieces: seq<Piece>, last: char, noBackslash: bool)
    decreases pieces
  {
    pieces != [] ==>
      var p, rest := pieces[0], pieces[1..];
      var l := Lexer(Normal, last, false);
      && (p.Code? ==> Whole(l, p.text, noBackslash) && (rest == [] || After(l, p.text, noBackslash).mode == Normal))
      && Framed(p, last, rest == [])
      && Fine(rest, EndOf(last, PieceText(p, noBackslash)), noBackslash)
  }

  /** A comment holds nothing that ends it, and is not opened by the end of what stands before it. */
  predicate Framed(p: Piece, last: char, isLast: bool) {
    match p
    case Block(text) => last != '/' && NoPair(['*'] + text, '*', '/')
    case LineComment(opener, text) => IsOpener(opener) && Absent('\n', text)
    case Trailing(opener, text) => isLast && IsOpener(opener) && Absent('\n', text)
    case _ => true
  }

  predicate IsOpener(opener: string) {
    opener == "#" || opener == "--" || opener == "//"
  }

  /** `c` is nowhere followed by `d`. */
  predicate NoPair(s: string, c: char, d: char) {
    forall i :: 0 < i < |s| ==> !(s[i - 1] == c && s[i] == d)
  }

  /** Text without quotes, placeholders and comments, after the character `last`. */
  predicate TidyCode(last: char, text: string) {
    && (forall i :: 0 <= i < |text| ==> text[i] !in {'\'', '"', '`', '#', '?'})
    && NoPair([last] + text, '-', '-') && NoPair([last] + text, '/', '/') && NoPair([last] + text, '/', '*')
  }

  /** The pieces as a writer of SQL would describe them. */
  predicate Tidy(pieces: seq<Piece>, last: char, noBackslash: bool)
    decreases pieces
  {
    pieces != [] ==>
      && (pieces[0].Code? ==> TidyCode(last, pieces[0].text))
      && Framed(pieces[0], last, pieces[1..] == [])
      && Tidy(pieces[1..], EndOf(last, PieceText(pieces[0], noBackslash)), noBackslash)
  }

  /** A character between double quotes: a quote is doubled or, with backslashes, escaped as backslashes are. */
  function DoubleEscaped(c: char, noBackslash: bool): string {
    if noBackslash then (if c == '"' then ['"', '"'] else [c])
    else if c == '"' || c == '\\' then ['\\', c]
    else [c]
  }

  function EscapeDouble(value: string, noBackslash: bool): string {
    if value == "" then "" else DoubleEscaped(value[0], noBackslash) + EscapeDouble(value[1..], noBackslash)
  }

  function EndOf(last: char, s: string): char {
    if s == "" then last else s[|s| - 1]
  }

  function PieceText(p: Piece, noBackslash: bool): string {
    match p
    case Code(text) => text
    case Literal(value) => "'" + ClientInfo.Escape(value, noBackslash) + "'"
    case DoubleQuoted(value) => "\"" + EscapeDouble(value, noBackslash) + "\""
    case Name(name) => Quoting.SqlQuoted(name)
    case Block(text) => "/*" + text + "*/"
    case LineComment(opener, text) => opener + text + "\n"
    case Trailing(opener, text) => opener + text
    case Hole => "?"
  }

  function Render(pieces: seq<Piece>, noBackslash: bool): string {
    if pieces == [] then "" else PieceText(pieces[0], noBackslash) + Render(pieces[1..], noBackslash)
  }

  /** The texts between the holes. */
  function Segments(pieces: seq<Piece>, noBackslash: bool): (r: seq<string>)
    ensures |r| >= 1
  {
    if pieces == [] then [""]
    else
      var here := if pieces[0].Hole? then ["", ""] else [PieceText(pieces[0], noBackslash)];
      Glue(here, Segments(pieces[1..], noBackslash))
  }

  function Holes(pieces: seq<Piece>): nat {
    if pieces == [] then 0 else (if pieces[0].Hole? then 1 else 0) + Holes(pieces[1..])
  }

  /** Outside quotes and comments, and not in the middle of a comment opener. */
  predicate Quiet(l: Lexer) {
    l.mode == Normal && l.last != '/' && l.last != '-'
  }

  /** `s` is lexed without meeting a placeholder. */
  predicate Whole(l: Lexer, s: string, noBackslash: bool) {
    Slices(l, s, noBackslash) == [s]
  }

  lemma OneChar(l: Lexer, c: char, noBackslash: bool)
    ensures After(l, [c], noBackslash) == Next(l, c, noBackslash)
    ensures Slices(l, [c], noBackslash) == if Placeholder(l, c) then ["", ""] else [[c]]
  {
    hide Next;
    assert [c][1..] == "";
    assert After(Next(l, c, noBackslash), "", noBackslash) == Next(l, c, noBackslash);
    assert Slices(Next(l, c, noBackslash), "", noBackslash) == [""];
    assert [c] + "" == [c];
  }

  lemma WholeConcat(l: Lexer, a: string, b: string, noBackslash: bool)
    requires Whole(l, a, noBackslash) && Whole(After(l, a, noBackslash), b, noBackslash)
    ensures Whole(l, a + b, noBackslash)
    ensures After(l, a + b, noBackslash) == After(After(l, a, noBackslash), b, noBackslash)
  {
    hide Slices, After;
    SlicesConcat(l, a, b, noBackslash);
    AfterConcat(l, a, b, noBackslash);
  }

  lemma TwoChars(l: Lexer, c: char, d: char, noBackslash: bool)
    requires !Placeholder(l, c) && !Placeholder(Next(l, c, noBackslash), d)
    ensures Whole(l, [c, d], noBackslash)
    ensures After(l, [c, d], noBackslash) == Next(Next(l, c, noBackslash), d, noBackslash)
  {
    hide Next, Slices, After, Placeholder;
    OneChar(l, c, noBackslash);
    OneChar(Next(l, c, noBackslash), d, noBackslash);
    WholeConcat(l, [c], [d], noBackslash);
    assert [c] + [d] == [c, d];
  }

  predicate InLiteral(l: Lexer) {
    l.mode == SqlString && l.singleQuotes
  }

  lemma EscapedCharStays(l: Lexer, c: char, noBackslash: bool)
    requires InLiteral(l)
    ensures var s := ClientInfo.EscapeChar(c, noBackslash);
            Whole(l, s, noBackslash) && InLiteral(After(l, s, noBackslash))
  {
    hide Slices, After;
    if ClientInfo.Escaped(c, noBackslash) {
      TwoChars(l, if noBackslash then '\'' else '\\', c, noBackslash);
    } else {
      OneChar(l, c, noBackslash);
    }
  }

  lemma {:induction false} EscapedStays(l: Lexer, value: string, noBackslash: bool)
    requires InLiteral(l)
    ensures var s := ClientInfo.Escape(value, noBackslash);
            Whole(l, s, noBackslash) && InLiteral(After(l, s, noBackslash))
    decreases value
  {
    hide InLiteral, Whole, ClientInfo.EscapeChar;
    if value == "" {
      WholeEmpty(l, noBackslash);
    } else {
      hide Slices, After;
      var s := ClientInfo.EscapeChar(value[0], noBackslash);
      EscapedCharStays(l, value[0], noBackslash);
      EscapedStays(After(l, s, noBackslash), value[1..], noBackslash);
      WholeConcat(l, s, ClientInfo.Escape(value[1..], noBackslash), noBackslash);
    }
  }

  lemma WholeEmpty(l: Lexer, noBackslash: bool)
    ensures Whole(l, "", noBackslash) && After(l, "", noBackslash) == l
  {
  }

  lemma {:induction false} DoubledStays(l: Lexer, name: string, noBackslash: bool)
    requires l.mode == Backtick
    ensures var s := Quoting.Doubled(name);
            Whole(l, s, noBackslash) && After(l, s, noBackslash).mode == Backtick
    decreases name
  {
    hide Whole;
    if name == "" {
      WholeEmpty(l, noBackslash);
    } else {
      hide Slices, After;
      var s := if name[0] == TICK then [TICK, TICK] else [name[0]];
      DoubledCharStays(l, name[0], noBackslash);
      DoubledStays(After(l, s, noBackslash), name[1..], noBackslash);
      WholeConcat(l, s, Quoting.Doubled(name[1..]), noBackslash);
    }
  }

  lemma DoubledCharStays(l: Lexer, c: char, noBackslash: bool)
    requires l.mode == Backtick
    ensures var s := if c == TICK then [TICK, TICK] else [c];
            Whole(l, s, noBackslash) && After(l, s, noBackslash).mode == Backtick
  {
    hide Slices, After;
    if c == TICK {
      TwoChars(l, TICK, TICK, noBackslash);
    } else {
      OneChar(l, c, noBackslash);
    }
  }

  lemma {:induction false} CodeStays(l: Lexer, s: string, noBackslash: bool)
    requires Quiet(l) && PlainCode(s)
    ensures Whole(l, s, noBackslash) && Quiet(After(l, s, noBackslash))
    decreases s
  {
    if s == "" {
      WholeEmpty(l, noBackslash);
    } else {
      hide Slices, After, Whole;
      var c := s[0];
      OneChar(l, c, noBackslash);
      assert Whole(l, [c], noBackslash) by { WholeChar(l, c, noBackslash); }
      CodeStays(Next(l, c, noBackslash), s[1..], noBackslash);
      WholeConcat(l, [c], s[1..], noBackslash);
      assert s == [c] + s[1..];
    }
  }

  lemma WholeChar(l: Lexer, c: char, noBackslash: bool)
    requires !Placeholder(l, c)
    ensures Whole(l, [c], noBackslash)
  {
    OneChar(l, c, noBackslash);
  }

  /** A quoted text: an opening character, a body that stays inside, and a closing character. */
  lemma QuotedWhole(l: Lexer, open: char, body: string, close: char, noBackslash: bool)
    requires !Placeholder(l, open) && Whole(Next(l, open, noBackslash), body, noBackslash)
    requires !Placeholder(After(Next(l, open, noBackslash), body, noBackslash), close)
    ensures Whole(l, [open] + body + [close], noBackslash)
    ensures After(l, [open] + body + [close], noBackslash)
         == Next(After(Next(l, open, noBackslash), body, noBackslash), close, noBackslash)
  {
    hide Whole, After, Slices, Next, Placeholder;
    WholeChar(l, open, noBackslash);
    OneChar(l, open, noBackslash);
    WholeConcat(l, [open], body, noBackslash);
    var m := After(l, [open] + body, noBackslash);
    WholeChar(m, close, noBackslash);
    OneChar(m, close, noBackslash);
    WholeConcat(l, [open] + body, [close], noBackslash);
  }

  /** A literal in the statement's own escape mode hides all its characters from the lexer. */
  lemma LiteralStays(l: Lexer, value: string, noBackslash: bool)
    requires l.mode == Normal
    ensures var s := PieceText(Literal(value), noBackslash);
            Whole(l, s, noBackslash) && Quiet(After(l, s, noBackslash))
  {
    hide Whole, After, Slices, ClientInfo.Escape;
    EscapedStays(Next(l, '\'', noBackslash), value, noBackslash);
    QuotedWhole(l, '\'', ClientInfo.Escape(value, noBackslash), '\'', noBackslash);
  }

  /** So does an identifier quoted with doubled backticks. */
  lemma NameStays(l: Lexer, name: string, noBackslash: bool)
    requires l.mode == Normal
    ensures var s := PieceText(Name(name), noBackslash);
            Whole(l, s, noBackslash) && Quiet(After(l, s, noBackslash))
  {
    hide Whole, After, Slices, Quoting.Doubled;
    DoubledStays(Next(l, TICK, noBackslash), name, noBackslash);
    QuotedWhole(l, TICK, Quoting.Doubled(name), TICK, noBackslash);
  }

  /** The same but for the kind of quotes of a string that is over. */
  predicate Alike(l: Lexer, m: Lexer) {
    && l.mode == m.mode && l.last == m.last
    && (l.mode == SqlString || l.mode == Escape ==> l.singleQuotes == m.singleQuotes)
  }

  lemma {:induction false} SlicesAlike(l: Lexer, m: Lexer, s: string, noBackslash: bool)
    requires Alike(l, m)
    ensures Slices(l, s, noBackslash) == Slices(m, s, noBackslash)
    ensures Alike(After(l, s, noBackslash), After(m, s, noBackslash))
    decreases s
  {
    if s != "" {
      NextAlike(l, m, s[0], noBackslash);
      hide Next, Alike;
      SlicesAlike(Next(l, s[0], noBackslash), Next(m, s[0], noBackslash), s[1..], noBackslash);
    }
  }

  lemma NextAlike(l: Lexer, m: Lexer, c: char, noBackslash: bool)
    requires Alike(l, m)
    ensures Alike(Next(l, c, noBackslash), Next(m, c, noBackslash)) && Placeholder(l, c) == Placeholder(m, c)
  {
  }

  lemma {:induction false} AfterLast(l: Lexer, s: string, noBackslash: bool)
    ensures After(l, s, noBackslash).last == EndOf(l.last, s)
    decreases s
  {
    if s != "" {
      assert Next(l, s[0], noBackslash).last == s[0];
      hide Next;
      AfterLast(Next(l, s[0], noBackslash), s[1..], noBackslash);
    }
  }

  lemma FramedLexes(l: Lexer, p: Piece, isLast: bool, noBackslash: bool)
    requires !p.Code? && !p.Hole? && l.mode == Normal && Framed(p, l.last, isLast)
    ensures var s := PieceText(p, noBackslash);
            Whole(l, s, noBackslash) && (isLast || After(l, s, noBackslash).mode == Normal)
  {
    hide After, Whole, Absent, NoPair, IsOpener;
    match p
    case Literal(value) => LiteralStays(l, value, noBackslash);
    case DoubleQuoted(value) => DoubleQuotedStays(l, value, noBackslash);
    case Name(name) => NameStays(l, name, noBackslash);
    case Block(text) => BlockStays(l, text, noBackslash);
    case LineComment(opener, text) => LineCommentStays(l, opener, text, noBackslash);
    case Trailing(opener, text) => TrailingStays(l, opener, text, noBackslash);
  }

  lemma PieceLexes(l: Lexer, pieces: seq<Piece>, noBackslash: bool)
    requires pieces != [] && l.mode == Normal && Fine(pieces, l.last, noBackslash)
    ensures var s := PieceText(pieces[0], noBackslash);
            Slices(l, s, noBackslash) == (if pieces[0].Hole? then ["", ""] else [s])
            && (pieces[1..] == [] || After(l, s, noBackslash).mode == Normal)
  {
    hide After, Slices, Framed;
    var p := pieces[0];
    if p.Code? {
      SlicesAlike(l, Lexer(Normal, l.last, false), p.text, noBackslash);
    } else if p.Hole? {
      OneChar(l, '?', noBackslash);
    } else {
      hide PieceText;
      FramedLexes(l, p, pieces[1..] == [], noBackslash);
    }
  }

  predicate InDouble(l: Lexer) {
    l.mode == SqlString && !l.singleQuotes
  }

  lemma DoubleCharStays(l: Lexer, c: char, noBackslash: bool)
    requires InDouble(l)
    ensures var s := DoubleEscaped(c, noBackslash);
            Whole(l, s, noBackslash) && InDouble(After(l, s, noBackslash))
  {
    hide Slices, After;
    if |DoubleEscaped(c, noBackslash)| == 2 {
      TwoChars(l, if noBackslash then '"' else '\\', c, noBackslash);
    } else {
      OneChar(l, c, noBackslash);
    }
  }

  lemma {:induction false} DoubleStays(l: Lexer, value: string, noBackslash: bool)
    requires InDouble(l)
    ensures var s := EscapeDouble(value, noBackslash);
            Whole(l, s, noBackslash) && InDouble(After(l, s, noBackslash))
    decreases value
  {
    hide InDouble, Whole, DoubleEscaped;
    if value == "" {
      WholeEmpty(l, noBackslash);
    } else {
      hide Slices, After;
      var s := DoubleEscaped(value[0], noBackslash);
      DoubleCharStays(l, value[0], noBackslash);
      DoubleStays(After(l, s, noBackslash), value[1..], noBackslash);
      WholeConcat(l, s, EscapeDouble(value[1..], noBackslash), noBackslash);
    }
  }

  /** A literal in double quotes hides all its characters from the lexer, in both escape modes. */
  lemma DoubleQuotedStays(l: Lexer, value: string, noBackslash: bool)
    requires l.mode == Normal
    ensures var s := PieceText(DoubleQuoted(value), noBackslash);
            Whole(l, s, noBackslash) && After(l, s, noBackslash).mode == Normal
  {
    hide Whole, After, Slices, EscapeDouble;
    DoubleStays(Next(l, '"', noBackslash), value, noBackslash);
    QuotedWhole(l, '"', EscapeDouble(value, noBackslash), '"', noBackslash);
  }

  lemma {:induction false} InBlockStays(l: Lexer, text: string, noBackslash: bool)
    requires l.mode == SlashStarComment && NoPair([l.last] + text, '*', '/')
    ensures Whole(l, text, noBackslash) && After(l, text, noBackslash).mode == SlashStarComment
    decreases text
  {
    if text == "" {
      WholeEmpty(l, noBackslash);
    } else {
      var c := text[0];
      var s := [l.last] + text;
      assert s[0] == l.last && s[1] == c;
      OneChar(l, c, noBackslash);
      WholeChar(l, c, noBackslash);
      var m := Next(l, c, noBackslash);
      assert m.mode == SlashStarComment && m.last == c;
      assert [c] + text[1..] == text && s[1..] == text;
      assert forall i :: 0 < i < |text| ==> text[i] == s[i + 1] && text[i - 1] == s[i];
      hide Slices, After, Whole, Next;
      InBlockStays(m, text[1..], noBackslash);
      WholeConcat(l, [c], text[1..], noBackslash);
    }
  }

  /** So does a comment between slashes and stars, up to the first star with a slash after it. */
  lemma BlockStays(l: Lexer, text: string, noBackslash: bool)
    requires l.mode == Normal && l.last != '/' && NoPair(['*'] + text, '*', '/')
    ensures var s := PieceText(Block(text), noBackslash);
            Whole(l, s, noBackslash) && After(l, s, noBackslash).mode == Normal
  {
    hide Whole, After, Slices;
    TwoChars(l, '/', '*', noBackslash);
    var m := After(l, ['/', '*'], noBackslash);
    assert m.mode == SlashStarComment && m.last == '*';
    InBlockStays(m, text, noBackslash);
    WholeConcat(l, ['/', '*'], text, noBackslash);
    var n := After(l, "/*" + text, noBackslash);
    TwoChars(n, '*', '/', noBackslash);
    WholeConcat(l, "/*" + text, ['*', '/'], noBackslash);
  }

  /** Each of the three openers starts a comment, whatever stands before it. */
  lemma OpenerOpens(l: Lexer, opener: string, noBackslash: bool)
    requires l.mode == Normal && IsOpener(opener)
    ensures Whole(l, opener, noBackslash) && After(l, opener, noBackslash).mode == EOLComment
  {
    hide After, Slices;
    if opener == "#" {
      OneChar(l, '#', noBackslash);
    } else if opener == "--" {
      TwoChars(l, '-', '-', noBackslash);
    } else {
      TwoChars(l, '/', '/', noBackslash);
    }
  }

  lemma TrailingStays(l: Lexer, opener: string, text: string, noBackslash: bool)
    requires l.mode == Normal && IsOpener(opener) && Absent('\n', text)
    ensures Whole(l, opener + text, noBackslash) && After(l, opener + text, noBackslash).mode == EOLComment
  {
    hide Whole, After, Slices, IsOpener;
    OpenerOpens(l, opener, noBackslash);
    CommentStays(After(l, opener, noBackslash), text, noBackslash);
    WholeConcat(l, opener, text, noBackslash);
  }

  /** So does a comment to the end of the line. */
  lemma LineCommentStays(l: Lexer, opener: string, text: string, noBackslash: bool)
    requires l.mode == Normal && IsOpener(opener) && Absent('\n', text)
    ensures var s := PieceText(LineComment(opener, text), noBackslash);
            Whole(l, s, noBackslash) && After(l, s, noBackslash).mode == Normal
  {
    hide Whole, After, Slices, IsOpener, Absent;
    TrailingStays(l, opener, text, noBackslash);
    var m := After(l, opener + text, noBackslash);
    OneChar(m, '\n', noBackslash);
    WholeChar(m, '\n', noBackslash);
    WholeConcat(l, opener + text, ['\n'], noBackslash);
  }

  lemma {:induction false} TidyCodeStays(l: Lexer, text: string, noBackslash: bool)
    requires l.mode == Normal && TidyCode(l.last, text)
    ensures Whole(l, text, noBackslash) && After(l, text, noBackslash).mode == Normal
    decreases text
  {
    if text == "" {
      WholeEmpty(l, noBackslash);
    } else {
      var c := text[0];
      var s := [l.last] + text;
      assert s[0] == l.last && s[1] == c;
      OneChar(l, c, noBackslash);
      WholeChar(l, c, noBackslash);
      var m := Next(l, c, noBackslash);
      assert m.mode == Normal && m.last == c;
      TidyRest(l.last, text);
      hide Slices, After, Whole, Next, TidyCode;
      TidyCodeStays(m, text[1..], noBackslash);
      WholeConcat(l, [c], text[1..], noBackslash);
      assert text == [c] + text[1..];
    }
  }

  lemma TidyRest(last: char, text: string)
    requires text != "" && TidyCode(last, text)
    ensures TidyCode(text[0], text[1..])
  {
    var s := [last] + text;
    assert [text[0]] + text[1..] == text;
    assert forall i :: 0 <= i < |text| ==> text[i] == s[i + 1];
  }

  lemma {:induction false} TidyIsFine(pieces: seq<Piece>, last: char, noBackslash: bool)
    requires Tidy(pieces, last, noBackslash)
    ensures Fine(pieces, last, noBackslash)
    decreases pieces
  {
    hide Whole, After, PieceText, TidyCode, Framed;
    if pieces != [] {
      TidyIsFine(pieces[1..], EndOf(last, PieceText(pieces[0], noBackslash)), noBackslash);
      if pieces[0].Code? {
        TidyCodeStays(Lexer(Normal, last, false), pieces[0].text, noBackslash);
      }
    }
  }

  /** For every statement written with plain text, literals in either kind of quotes, quoted names, comments of every
      kind and placeholders, the parameters found are the placeholders and the parts are the texts between them. */
  lemma StatementParts(pieces: seq<Piece>, noBackslash: bool)
    requires Tidy(pieces, '\0', noBackslash)
    ensures |Parts(Render(pieces, noBackslash), noBackslash)| == Holes(pieces) + 1
    ensures Absent('\0', Render(pieces, noBackslash)) ==>
              Parts(Render(pieces, noBackslash), noBackslash) == Segments(pieces, noBackslash)
  {
    hide Tidy, Fine, Parts, Segments, Absent, Render;
    TidyIsFine(pieces, '\0', noBackslash);
    PartsAreSegments(pieces, noBackslash);
  }

  /** One character more. */
  lemma FirstCounts(l: Lexer, c: char, rest: string, noBackslash: bool)
    ensures |Slices(l, [c] + rest, noBackslash)|
         == |Slices(Next(l, c, noBackslash), rest, noBackslash)| + if c == '?' && l.mode == Normal then 1 else 0
  {
    assert ([c] + rest)[1..] == rest;
  }

  /** Where the lexer takes comments otherwise than MariaDB does: a slash right after the opening of a comment closes it
      again, so a question mark in the comment counts. */
  lemma BlockExample(noBackslash: bool)
    ensures |Parts("/*/?*/", noBackslash)| == 2
  {
    hide Slices;
    var s := Lexer(Normal, '/', false);
    var c := Lexer(SlashStarComment, '*', false);
    FirstCounts(BEGIN, '/', "*/?*/", noBackslash);
    FirstCounts(s, '*', "/?*/", noBackslash);
    FirstCounts(c, '/', "?*/", noBackslash);
    FirstCounts(s, '?', "*/", noBackslash);
    FirstCounts(Lexer(Normal, '?', false), '*', "/", noBackslash);
    FirstCounts(Lexer(Normal, '*', false), '/', "", noBackslash);
    assert ['/'] + "" == "/" && ['*'] + "/" == "*/" && ['?'] + "*/" == "?*/" && ['/'] + "?*/" == "/?*/";
    assert ['*'] + "/?*/" == "*/?*/" && ['/'] + "*/?*/" == "/*/?*/";
    NoSlices(s, noBackslash);
  }

  /** Exactly then: the lexer stays in a comment up to the end of its text if the text does not start with a slash. */
  lemma BlockHoldsIff(l: Lexer, text: string, noBackslash: bool)
    requires l.mode == Normal && l.last != '/' && NoPair(text, '*', '/')
    ensures (forall k :: 0 <= k <= |text| ==> After(l, "/*" + text[..k], noBackslash).mode == SlashStarComment)
       <==> text == "" || text[0] != '/'
  {
    hide Whole, After, Slices;
    TwoChars(l, '/', '*', noBackslash);
    var m := After(l, ['/', '*'], noBackslash);
    assert "/*" == ['/', '*'];
    if text == "" || text[0] != '/' {
      forall k | 0 <= k <= |text| ensures After(l, "/*" + text[..k], noBackslash).mode == SlashStarComment {
        AfterConcat(l, "/*", text[..k], noBackslash);
        InBlockStays(m, text[..k], noBackslash);
      }
    } else {
      AfterConcat(l, "/*", text[..1], noBackslash);
      OneChar(m, '/', noBackslash);
      assert text[..1] == ['/'];
    }
  }

  lemma NoSlices(l: Lexer, noBackslash: bool)
    ensures |Slices(l, "", noBackslash)| == 1
  {
  }

  /** And two dashes between operands hide the rest of the line, so a question mark after them does not count. */
  lemma DashExample(noBackslash: bool)
    ensures |Parts("1--?", noBackslash)| == 1
  {
    hide Slices;
    var c := Lexer(EOLComment, '-', false);
    FirstCounts(BEGIN, '1', "--?", noBackslash);
    FirstCounts(Lexer(Normal, '1', false), '-', "-?", noBackslash);
    FirstCounts(Lexer(Normal, '-', false), '-', "?", noBackslash);
    FirstCounts(c, '?', "", noBackslash);
    assert ['?'] + "" == "?" && ['-'] + "?" == "-?" && ['-'] + "-?" == "--?" && ['1'] + "--?" == "1--?";
    NoSlices(Lexer(EOLComment, '?', false), noBackslash);
  }

  lemma {:induction false} SlicesAreSegments(l: Lexer, pieces: seq<Piece>, noBackslash: bool)
    requires (pieces == [] || l.mode == Normal) && Fine(pieces, l.last, noBackslash)
    ensures Slices(l, Render(pieces, noBackslash), noBackslash) == Segments(pieces, noBackslash)
    ensures |Segments(pieces, noBackslash)| == Holes(pieces) + 1
    decreases pieces
  {
    if pieces != [] {
      hide Slices, After, PieceText;
      var s, rest := PieceText(pieces[0], noBackslash), pieces[1..];
      PieceLexes(l, pieces, noBackslash);
      AfterLast(l, s, noBackslash);
      SlicesAreSegments(After(l, s, noBackslash), rest, noBackslash);
      SlicesConcat(l, s, Render(rest, noBackslash), noBackslash);
    }
  }

  /** In a statement put together from code, literals, quoted names and holes, the parameters found are the holes and
      the parts are the texts between them, whatever the values and names hold. */
  lemma PartsAreSegments(pieces: seq<Piece>, noBackslash: bool)
    requires Fine(pieces, '\0', noBackslash)
    ensures |Parts(Render(pieces, noBackslash), noBackslash)| == Holes(pieces) + 1
    ensures Absent('\0', Render(pieces, noBackslash)) ==>
              Parts(Render(pieces, noBackslash), noBackslash) == Segments(pieces, noBackslash)
  {
    hide Slices, Render, Segments, Join;
    var query := Render(pieces, noBackslash);
    SlicesAreSegments(BEGIN, pieces, noBackslash);
    SlicesJoin(BEGIN, query, noBackslash);
    var slices := Slices(BEGIN, query, noBackslash);
    if |slices| == 1 {
      JoinOne(slices[0]);
      assert slices == [slices[0]];
    } else if Absent('\0', query) {
      CutNothing(slices);
    }
  }

  /** Text without quotes, comment characters and question marks is such code wherever no comment can be half open. */
  lemma PlainCodeIsFine(last: char, text: string, noBackslash: bool)
    requires PlainCode(text) && last != '/' && last != '-'
    ensures var l := Lexer(Normal, last, false);
            Whole(l, text, noBackslash) && After(l, text, noBackslash).mode == Normal
  {
    CodeStays(Lexer(Normal, last, false), text, noBackslash);
  }

  lemma {:induction false} CommentStays(l: Lexer, text: string, noBackslash: bool)
    requires l.mode == EOLComment && Absent('\n', text)
    ensures Whole(l, text, noBackslash) && After(l, text, noBackslash).mode == EOLComment
    decreases text
  {
    if text == "" {
      WholeEmpty(l, noBackslash);
    } else {
      var c := text[0];
      OneChar(l, c, noBackslash);
      WholeChar(l, c, noBackslash);
      assert Next(l, c, noBackslash).mode == EOLComment;
      hide Slices, After, Whole, Next;
      CommentStays(Next(l, c, noBackslash), text[1..], noBackslash);
      WholeConcat(l, [c], text[1..], noBackslash);
      assert text == [c] + text[1..];
    }
  }

  /** So is a comment up to the end of its line, question marks included. */
  lemma CommentIsFine(last: char, text: string, noBackslash: bool)
    requires Absent('\n', text)
    ensures var l := Lexer(Normal, last, false);
            var s := ['#'] + text + ['\n'];
            Whole(l, s, noBackslash) && After(l, s, noBackslash).mode == Normal
  {
    hide Whole, After, Slices;
    var l := Lexer(Normal, last, false);
    CommentStays(Next(l, '#', noBackslash), text, noBackslash);
    QuotedWhole(l, '#', text, '\n', noBackslash);
  }

  lemma {:induction false} CutNothing(slices: seq<string>)
    requires |slices| >= 1 && Absent('\0', Join(slices, '?'))
    ensures Cut(slices) == slices
    decreases slices
  {
    if |slices| > 1 {
      AbsentParts(slices[0], Join(slices[1..], '?'));
      CutNothing(slices[1..]);
      assert Cut(slices)[1..] == Cut(slices[1..]);
      assert Cut(slices) == [Cut(slices)[0]] + Cut(slices)[1..];
      assert slices == [slices[0]] + slices[1..];
    }
  }
}
