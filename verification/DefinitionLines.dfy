/** The lines of a table definition that are no foreign keys, as the server prints them: when `getImportedKeys` passes
    over them. */
module DefinitionLines {
  import opened Text
  import opened Quoting
  import opened Identifiers
  import opened ImportedKeys
  import opened ConstraintText
  import opened ActionSearch

  // ---------------------------------------------------------------- trimming and searching

  lemma {:induction false} LTrimKeepsMatches(s: string, p: string)
    requires p != "" && !IsSpace(p[0])
    ensures Contains(LTrim(s), p) <==> Contains(s, p)
  {
    hide Contains;
    if s != "" && IsSpace(s[0]) {
      LTrimKeepsMatches(s[1..], p);
      SkipFirst(s, p);
    }
  }

  lemma SkipFirst(s: string, p: string)
    requires s != "" && p != "" && s[0] != p[0]
    ensures Contains(s[1..], p) <==> Contains(s, p)
  {
    if Contains(s, p) {
      var i: nat :| MatchesAt(s, p, i);
      assert s[i..i + |p|][0] == s[i];
      assert s[1..][i - 1..i - 1 + |p|] == s[i..i + |p|];
      assert MatchesAt(s[1..], p, i - 1);
    }
    if Contains(s[1..], p) {
      var i: nat :| MatchesAt(s[1..], p, i);
      assert s[i + 1..i + 1 + |p|] == s[1..][i..i + |p|];
      assert MatchesAt(s, p, i + 1);
    }
  }

  lemma SkipLast(s: string, p: string)
    requires s != "" && p != "" && s[|s| - 1] != p[|p| - 1]
    ensures Contains(s[..|s| - 1], p) <==> Contains(s, p)
  {
    var front := s[..|s| - 1];
    if Contains(s, p) {
      var i: nat :| MatchesAt(s, p, i);
      assert s[i..i + |p|][|p| - 1] == s[i + |p| - 1];
      assert front[i..i + |p|] == s[i..i + |p|];
      assert MatchesAt(front, p, i);
    }
    if Contains(front, p) {
      var i: nat :| MatchesAt(front, p, i);
      assert s[i..i + |p|] == front[i..i + |p|];
      assert MatchesAt(s, p, i);
    }
  }

  lemma {:induction false} RTrimKeepsMatches(s: string, p: string)
    requires p != "" && !IsSpace(p[|p| - 1])
    ensures Contains(RTrim(s), p) <==> Contains(s, p)
  {
    hide Contains;
    if s != "" && IsSpace(s[|s| - 1]) {
      RTrimKeepsMatches(s[..|s| - 1], p);
      SkipLast(s, p);
    }
  }

  /** Trimming takes no match away. */
  lemma TrimKeepsMatches(s: string, p: string)
    requires p != "" && !IsSpace(p[0]) && !IsSpace(p[|p| - 1])
    ensures Contains(Trim(s), p) <==> Contains(s, p)
  {
    hide Contains, LTrim, RTrim;
    LTrimKeepsMatches(s, p);
    RTrimKeepsMatches(LTrim(s), p);
  }

  /** The line is parsed as a foreign key. */
  ghost predicate TakenForKey(text: string) {
    "CONSTRAINT" <= Trim(text) || Contains(text, "FOREIGN KEY")
  }

  lemma TakenForKeyIff(text: string)
    ensures IsKeyLine(Trim(text)) <==> TakenForKey(text)
  {
    hide Trim, Contains, Find;
    var p := "FOREIGN KEY";
    assert p[0] == 'F' && p[|p| - 1] == 'Y';
    TrimKeepsMatches(text, p);
    FindsContained(Trim(text), p);
  }

  // ---------------------------------------------------------------- lines that start with something else

  lemma NotAConstraint(part: string)
    requires part != "" && part[0] != 'C' && !IsSpace(part[0])
    ensures ReadConstraint(part).Err?
  {
    hide ReadIdentifier, ReadList;
    AfterSpacesIs(part, 0, 0);
    assert "CONSTRAINT"[0] == 'C';
  }

  /** A line whose first character cannot begin CONSTRAINT gives no rows, and fails exactly if FOREIGN KEY is in it. */
  lemma OtherStart(indent: string, c: char, rest: string, catalog: string, tableName: string)
    requires AllSpaces(indent) && c != 'C' && !IsSpace(c)
    ensures var text := indent + [c] + rest;
            var r := LineRows(Trim(text), catalog, tableName);
            if Contains(text, "FOREIGN KEY") then r.Err? else r == Ok([])
  {
    hide Trim, Contains, ReadConstraint, IsKeyLine;
    var text := indent + [c] + rest;
    TrimHead(indent, c, rest);
    var part := Trim(text);
    assert !("CONSTRAINT" <= part) by { assert "CONSTRAINT"[0] == 'C'; }
    TakenForKeyIff(text);
    NotAConstraint(part);
  }

  lemma {:induction false} TrimHead(indent: string, c: char, rest: string)
    requires AllSpaces(indent) && !IsSpace(c)
    ensures Trim(indent + [c] + rest) != "" && Trim(indent + [c] + rest)[0] == c
  {
    var text := indent + [c] + rest;
    if indent == "" {
      assert text == [c] + rest;
      RTrimHead(text);
    } else {
      assert text[1..] == indent[1..] + [c] + rest;
      TrimHead(indent[1..], c, rest);
    }
  }

  lemma {:induction false} RTrimHead(s: string)
    requires s != "" && !IsSpace(s[0])
    ensures RTrim(s) != "" && RTrim(s)[0] == s[0]
  {
    if IsSpace(s[|s| - 1]) {
      RTrimHead(s[..|s| - 1]);
    }
  }

  // ---------------------------------------------------------------- the lines of the server

  /** A column: its quoted name, and the rest of the line. */
  function ColumnLine(name: string, definition: string): string {
    SqlQuoted(name) + (" " + definition)
  }

  function Comma(comma: bool): string {
    if comma then "," else ""
  }

  function PrimaryLine(columns: seq<string>, comma: bool): string {
    "PRIMARY KEY (" + NameList(columns) + (")" + Comma(comma))
  }

  function IndexLine(unique: bool, name: string, columns: seq<string>, comma: bool): string {
    (if unique then "UNIQUE KEY " else "KEY ") + SqlQuoted(name) + (" (" + NameList(columns) + (")" + Comma(comma)))
  }

  lemma NoFirst(a: string, p: string)
    requires p != "" && Absent(p[0], a)
    ensures !Contains(a, p)
  {
    forall i: nat ensures !MatchesAt(a, p, i) {
      if i + |p| <= |a| {
        assert a[i..i + |p|][0] == a[i];
      }
    }
  }

  lemma PatternIs()
    ensures var p := "FOREIGN KEY"; Absent(TICK, p) && |p| == 11 && p[0] == 'F'
  {
  }

  lemma ColumnContains(name: string, definition: string)
    ensures Contains(ColumnLine(name, definition), "FOREIGN KEY")
       <==> Contains(name, "FOREIGN KEY") || Contains(definition, "FOREIGN KEY")
  {
    hide Contains, SqlQuoted;
    var p := "FOREIGN KEY";
    PatternIs();
    ContainsQuoted("", name, " " + definition, p);
    assert "" + SqlQuoted(name) + (" " + definition) == ColumnLine(name, definition);
    TooShort("", p);
    SkipFirst(" " + definition, p);
    assert (" " + definition)[1..] == definition;
  }

  lemma PrimaryContains(columns: seq<string>, comma: bool)
    requires columns != []
    ensures Contains(PrimaryLine(columns, comma), "FOREIGN KEY") <==> SomeContains(columns, "FOREIGN KEY")
  {
    hide Contains, NameList, SomeContains;
    var p := "FOREIGN KEY";
    PatternIs();
    ContainsNameList("PRIMARY KEY (", columns, ")" + Comma(comma), p);
    assert Absent('F', "PRIMARY KEY (");
    NoFirst("PRIMARY KEY (", p);
    TooShort(")" + Comma(comma), p);
  }

  lemma IndexContains(unique: bool, name: string, columns: seq<string>, comma: bool)
    requires columns != []
    ensures Contains(IndexLine(unique, name, columns, comma), "FOREIGN KEY")
       <==> Contains(name, "FOREIGN KEY") || SomeContains(columns, "FOREIGN KEY")
  {
    hide Contains, NameList, SomeContains, SqlQuoted;
    var p := "FOREIGN KEY";
    PatternIs();
    var head := if unique then "UNIQUE KEY " else "KEY ";
    var tail := " (" + NameList(columns) + (")" + Comma(comma));
    ContainsQuoted(head, name, tail, p);
    assert Absent('F', "UNIQUE KEY ") && Absent('F', "KEY ");
    NoFirst(head, p);
    ContainsNameList(" (", columns, ")" + Comma(comma), p);
    TooShort(" (", p);
    TooShort(")" + Comma(comma), p);
  }

  lemma IndentContains(indent: string, s: string)
    requires AllSpaces(indent)
    ensures Contains(indent + s, "FOREIGN KEY") <==> Contains(s, "FOREIGN KEY")
    decreases |indent|
  {
    hide Contains;
    var p := "FOREIGN KEY";
    if indent == "" {
      assert indent + s == s;
    } else {
      assert (indent + s)[1..] == indent[1..] + s;
      IndentContains(indent[1..], s);
      SkipFirst(indent + s, p);
    }
  }

  /** An indented line that starts with another character than C. */
  lemma PassedOver(indent: string, line: string, catalog: string, tableName: string)
    requires AllSpaces(indent) && line != "" && line[0] != 'C' && !IsSpace(line[0])
    ensures var r := LineRows(Trim(indent + line), catalog, tableName);
            if Contains(line, "FOREIGN KEY") then r.Err? else r == Ok([])
  {
    hide Trim, Contains, LineRows;
    OtherStart(indent, line[0], line[1..], catalog, tableName);
    assert indent + [line[0]] + line[1..] == indent + line;
    IndentContains(indent, line);
  }
}
