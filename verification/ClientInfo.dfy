/** The statement that `setClientInfo` sends, and a reader for MariaDB string literals in both escape modes. */
module ClientInfo {
  import opened Text

  const BACKSLASH: char := '\\'
  const QUOTE: char := '\''
  const NUL: char := '\0'

  // ---------------------------------------------------------------- writing

  predicate Escaped(c: char, noBackslash: bool) {
    c == QUOTE || (!noBackslash && (c == BACKSLASH || c == '"' || c == NUL))
  }

  function EscapeChar(c: char, noBackslash: bool): string {
    if Escaped(c, noBackslash) then [if noBackslash then QUOTE else BACKSLASH, c] else [c]
  }

  function Escape(value: string, noBackslash: bool): string {
    if value == "" then "" else EscapeChar(value[0], noBackslash) + Escape(value[1..], noBackslash)
  }

  function ClientQuery(name: string, value: string, noBackslash: bool): string {
    "SET @" + name + "=" + if value == "" then "NULL" else "'" + Escape(value, noBackslash) + "'"
  }

  lemma {:induction false} EscapeAppend(value: string, c: char, noBackslash: bool)
    ensures Escape(value + [c], noBackslash) == Escape(value, noBackslash) + EscapeChar(c, noBackslash)
  {
    if value != "" {
      assert (value + [c])[1..] == value[1..] + [c];
      EscapeAppend(value[1..], c, noBackslash);
    } else {
      assert Escape([c][1..], noBackslash) == "";
    }
  }

  lemma EscapeNext(value: string, k: nat, noBackslash: bool)
    requires k < |value|
    ensures Escape(value[..k + 1], noBackslash) == Escape(value[..k], noBackslash) + EscapeChar(value[k], noBackslash)
  {
    EscapeAppend(value[..k], value[k], noBackslash);
    assert value[..k + 1] == value[..k] + [value[k]];
  }

  lemma EscapeNone(noBackslash: bool)
    ensures Escape("", noBackslash) == ""
  {
  }

  method BuildClientQuery(name: string, value: string, noBackslash: bool) returns (query: string)
    ensures query == ClientQuery(name, value, noBackslash)
  {
    hide Escape;
    query := "SET @" + name + "=";
    if value == "" {
      return query + "NULL";
    }
    ghost var head := query;
    query := query + "'";
    assert Escape(value[..0], noBackslash) == "" by { EscapeNone(noBackslash); }
    var offset := 0;
    while offset < |value|
      invariant 0 <= offset <= |value|
      invariant query == head + "'" + Escape(value[..offset], noBackslash)
    {
      var c := value[offset];
      EscapeNext(value, offset, noBackslash);
      if noBackslash {
        if c == QUOTE {
          query := query + [QUOTE];
        }
        query := query + [c];
      } else {
        if c == QUOTE || c == BACKSLASH || c == '"' || c == NUL {
          query := query + [BACKSLASH];
        }
        query := query + [c];
      }
      offset := offset + 1;
    }
    assert value[..offset] == value;
    query := query + "'";
  }

  // ---------------------------------------------------------------- reading

  /** What a backslash and the next character stand for. */
  function Unescape(c: char): string {
    match c
    case '0' => [NUL]
    case 'b' => [8 as char]
    case 'n' => "\n"
    case 'r' => "\r"
    case 't' => "\t"
    case 'Z' => [26 as char]
    case '%' => [BACKSLASH, '%']
    case '_' => [BACKSLASH, '_']
    case _ => [c]
  }

  datatype Literal = Literal(value: string, rest: string)

  /** Reads a literal after its opening quote: its value, and the text after the closing quote. */
  function ReadLiteral(text: string, noBackslash: bool): Option<Literal> {
    if text == "" then None
    else if text[0] == QUOTE then
      if |text| > 1 && text[1] == QUOTE then Prefixed([QUOTE], ReadLiteral(text[2..], noBackslash))
      else Some(Literal("", text[1..]))
    else if text[0] == BACKSLASH && !noBackslash then
      if |text| == 1 then None else Prefixed(Unescape(text[1]), ReadLiteral(text[2..], noBackslash))
    else Prefixed([text[0]], ReadLiteral(text[1..], noBackslash))
  }

  function Prefixed(s: string, r: Option<Literal>): Option<Literal> {
    match r
    case None => None
    case Some(literal) => Some(Literal(s + literal.value, literal.rest))
  }

  datatype Assigned = Null | Text(value: string)

  /** Reads a whole `SET @name=` statement. */
  function ReadAssignment(query: string, name: string, noBackslash: bool): Option<Assigned> {
    var head := "SET @" + name + "=";
    if !(head <= query) then None
    else
      var text := query[|head|..];
      if text == "NULL" then Some(Null)
      else if text == "" || text[0] != QUOTE then None
      else
        match ReadLiteral(text[1..], noBackslash)
        case None => None
        case Some(literal) => if literal.rest == "" then Some(Text(literal.value)) else None
  }

  /** The reader undoes the escape of one character. */
  lemma ReadEscapedChar(c: char, text: string, noBackslash: bool)
    ensures ReadLiteral(EscapeChar(c, noBackslash) + text, noBackslash) == Prefixed([c], ReadLiteral(text, noBackslash))
  {
    var t := EscapeChar(c, noBackslash) + text;
    if Escaped(c, noBackslash) {
      assert t[2..] == text;
    } else {
      assert t[1..] == text;
    }
  }

  lemma ReadClosing(after: string, noBackslash: bool)
    requires after == "" || after[0] != QUOTE
    ensures ReadLiteral("'" + after, noBackslash) == Some(Literal("", after))
  {
    assert ("'" + after)[1..] == after;
  }

  /** In either mode the reader yields the value and stops at the quote that closes it. */
  lemma {:induction false} ReadEscaped(value: string, after: string, noBackslash: bool)
    requires after == "" || after[0] != QUOTE
    ensures ReadLiteral(Escape(value, noBackslash) + "'" + after, noBackslash) == Some(Literal(value, after))
  {
    hide ReadLiteral, EscapeChar;
    if value == "" {
      ReadClosing(after, noBackslash);
      assert Escape(value, noBackslash) + "'" + after == "'" + after;
    } else {
      ReadEscaped(value[1..], after, noBackslash);
      var c := value[0];
      var tail := Escape(value[1..], noBackslash) + "'" + after;
      ReadEscapedChar(c, tail, noBackslash);
      assert Escape(value, noBackslash) + "'" + after == EscapeChar(c, noBackslash) + tail;
      assert value == [c] + value[1..];
    }
  }

  /** The characters that get an escape. */
  function Special(value: string, noBackslash: bool): nat {
    if value == "" then 0
    else
      (if value[0] == '\'' then 1
       else if !noBackslash && (value[0] == '\\' || value[0] == '"' || value[0] == '\0') then 1
       else 0) + Special(value[1..], noBackslash)
  }

  /** Quotes, and with backslashes also backslashes, double quotes and NULs, get one more character each. */
  lemma {:induction false} EscapeLength(value: string, noBackslash: bool)
    ensures |Escape(value, noBackslash)| == |value| + Special(value, noBackslash)
  {
    if value != "" {
      EscapeLength(value[1..], noBackslash);
    }
  }

  /** The server is told exactly the value, NULL for the empty one. */
  lemma QueryRoundTrip(name: string, value: string, noBackslash: bool)
    ensures ReadAssignment(ClientQuery(name, value, noBackslash), name, noBackslash)
         == Some(if value == "" then Null else Text(value))
  {
    hide Escape, ReadLiteral;
    var head := "SET @" + name + "=";
    var query := ClientQuery(name, value, noBackslash);
    if value == "" {
      assert query[|head|..] == "NULL";
    } else {
      var literal := "'" + Escape(value, noBackslash) + "'";
      assert query[|head|..] == literal;
      ReadEscaped(value, "", noBackslash);
      assert literal[1..] == Escape(value, noBackslash) + "'" + "";
    }
  }
}
