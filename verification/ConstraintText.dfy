/** The constraint lines of SHOW CREATE TABLE, as the server prints them, and what `getImportedKeys` reads back. */
module ConstraintText {
  import opened Text
  import opened Quoting
  import opened Identifiers
  import opened ImportedKeys

  /** A foreign key: its columns pair a referencing with a referenced column, an empty schema is not printed. */
  datatype ForeignKey = ForeignKey(
    name: string, columns: seq<(string, string)>, schema: string, table: string,
    onDelete: Option<Action>, onUpdate: Option<Action>)
  {
    function FkColumns(): (r: seq<string>)
      ensures |r| == |columns|
    {
      seq(|columns|, i requires 0 <= i < |columns| => columns[i].0)
    }

    function PkColumns(): (r: seq<string>)
      ensures |r| == |columns|
    {
      seq(|columns|, i requires 0 <= i < |columns| => columns[i].1)
    }

    function ToConstraint(): Constraint {
      Constraint(name, FkColumns(), Identifier(schema, table), PkColumns())
    }
  }

  function NameList(names: seq<string>): string {
    if names == [] then ""
    else if |names| == 1 then SqlQuoted(names[0])
    else SqlQuoted(names[0]) + ", " + NameList(names[1..])
  }

  function TableText(schema: string, table: string): string {
    if schema == "" then SqlQuoted(table) else SqlQuoted(schema) + "." + SqlQuoted(table)
  }

  function ActionClause(keyword: string, a: Option<Action>): string {
    match a
    case None => ""
    case Some(action) => " " + keyword + ActionText(action)
  }

  function Tail(fk: ForeignKey, comma: bool): string {
    ActionClause("ON DELETE ", fk.onDelete) + ActionClause("ON UPDATE ", fk.onUpdate) + (if comma then "," else "")
  }

  function Line(fk: ForeignKey, comma: bool): string {
    "CONSTRAINT" + (" " + SqlQuoted(fk.name)) + " FOREIGN KEY" + (" (" + NameList(fk.FkColumns()) + ")")
    + " REFERENCES" + (" " + TableText(fk.schema, fk.table)) + (" (" + NameList(fk.PkColumns()) + ")")
    + Tail(fk, comma)
  }

  // ---------------------------------------------------------------- reading the pieces in place

  /** What may follow a name. */
  predicate Ends(b: string) {
    b != "" && b[0] != TICK && b[0] != '.'
  }

  lemma Middle(a: string, x: string, b: string)
    ensures (a + x + b)[|a|..|a + x|] == x
    ensures b != "" ==> (a + x + b)[|a + x|] == b[0]
  {
  }

  lemma KeywordAt(a: string, white: string, keyword: string, b: string)
    requires AllSpaces(white) && keyword != "" && !IsSpace(keyword[0])
    ensures Keyword(a + (white + keyword) + b, |a|, keyword) == Ok(|a| + |white| + |keyword|)
  {
    hide AfterSpaces, ReadKeyword;
    var part := a + (white + keyword) + b;
    assert part == a + white + (keyword + b) && part == (a + white) + keyword + b;
    Middle(a, white, keyword + b);
    Middle(a + white, keyword, b);
    AfterSpacesIs(part, |a|, |a + white|);
    assert keyword[0..] == keyword;
    ReadKeywordIff(part, |a + white|, keyword, 0, |a + white| + |keyword|);
  }

  lemma TableTextDotted(schema: string, table: string)
    ensures DottedText(" " + TableText(schema, table), "", Identifier(schema, table))
  {
    if schema == "" {
      assert Opens(" " + TableText(schema, table), " ", table, "");
    } else {
      var rest := "." + SqlQuoted(table);
      assert rest[1..] == "" + SqlQuoted(table) + "";
      assert Opens(rest[1..], "", table, "");
      assert DottedText(rest[1..], schema, Identifier(schema, table));
      assert " " + TableText(schema, table) == " " + SqlQuoted(schema) + rest;
      assert Opens(" " + TableText(schema, table), " ", schema, rest);
    }
  }

  lemma TableAt(a: string, schema: string, table: string, b: string)
    requires Ends(b)
    ensures var x := " " + TableText(schema, table);
            ReadIdentifier(a + x + b, |a|, "") == Ok((|a + x|, Identifier(schema, table)))
  {
    hide ReadIdentifier, DottedText, TableText;
    var x := " " + TableText(schema, table);
    Middle(a, x, b);
    TableTextDotted(schema, table);
    ReadIdentifierAccepts(a + x + b, |a|, |a + x|, "", Identifier(schema, table));
  }

  function Ids(names: seq<string>): (r: seq<Identifier>)
    ensures |r| == |names| && Names(r) == names
  {
    seq(|names|, i requires 0 <= i < |names| => Identifier("", names[i]))
  }

  lemma {:induction false} NameListBody(names: seq<string>)
    ensures ListBody(NameList(names) + ")", Ids(names))
    decreases |names|
  {
    hide DottedText, SqlQuoted;
    if names != [] {
      var more := if |names| == 1 then ")" else ", " + NameList(names[1..]) + ")";
      assert NameList(names) + ")" == SqlQuoted(names[0]) + more;
      assert Ids(names)[1..] == Ids(names[1..]);
      NameListBody(names[1..]);
      if |names| == 1 {
        assert names[1..] == [];
      } else {
        assert more[1..][1..] == NameList(names[1..]) + ")";
        assert ListBody(more[1..], Ids(names[1..]));
      }
      NameThenMore(names[0], more, Ids(names));
    }
  }

  lemma NameThenMore(name: string, more: string, ids: seq<Identifier>)
    requires ids != [] && ids[0] == Identifier("", name) && Ends(more) && ListBody(more, ids[1..])
    ensures ListBody(SqlQuoted(name) + more, ids)
  {
    hide DottedText;
    var quoted := SqlQuoted(name);
    var t := quoted + more;
    assert t[..|quoted|] == quoted && t[|quoted|..] == more;
    NameDotted(name);
    assert NameThenList(t, |quoted|, ids);
  }

  lemma NameDotted(s: string)
    ensures DottedText(SqlQuoted(s), "", Identifier("", s))
  {
    assert SqlQuoted(s) == "" + SqlQuoted(s) + "";
    assert Opens(SqlQuoted(s), "", s, "");
  }

  lemma ListAt(a: string, names: seq<string>, b: string)
    ensures var x := " (" + NameList(names) + ")";
            ReadList(a + x + b, |a|) == Ok((|a + x|, Ids(names)))
  {
    hide AfterSpaces, ReadItems, ListBody, NameList;
    var body := NameList(names) + ")";
    var x := " (" + NameList(names) + ")";
    var part := a + x + b;
    assert x == " (" + body;
    assert part == a + " " + ("(" + body + b) && part == (a + " (") + body + b;
    Middle(a, " ", "(" + body + b);
    Middle(a + " (", body, b);
    AfterSpacesIs(part, |a|, |a| + 1);
    NameListBody(names);
    ReadListIff(part, |a|, |a + x|, Ids(names));
  }

  lemma Shift(a: string, x: string, b: string)
    ensures a + (x + b) == a + x + b
  {
  }

  /** Reading the pieces one after the other reads the constraint. */
  lemma ReadsInOrder(part: string, p1: nat, n: (nat, Identifier), p2: nat, l1: (nat, seq<Identifier>),
                     p3: nat, t: (nat, Identifier), l2: (nat, seq<Identifier>))
    requires Keyword(part, 0, "CONSTRAINT") == Ok(p1) && ReadIdentifier(part, p1, "") == Ok(n)
    requires Keyword(part, n.0, "FOREIGN KEY") == Ok(p2) && ReadList(part, p2) == Ok(l1)
    requires Keyword(part, l1.0, "REFERENCES") == Ok(p3) && ReadIdentifier(part, p3, "") == Ok(t)
    requires ReadList(part, t.0) == Ok(l2)
    ensures ReadConstraint(part) ==
            if |l2.1| == |l1.1| then Ok(Constraint(n.1.name, Names(l1.1), t.1, Names(l2.1))) else Err(ParseError(0))
    ensures ConstraintEnd(part) == Some(l2.0)
  {
    hide Keyword, ReadIdentifier, ReadList;
  }

  /** The position after a constraint, where its parse ends; `None` if it fails. */
  function ConstraintEnd(part: string): Option<nat> {
    match Keyword(part, 0, "CONSTRAINT")
    case Err(_) => None
    case Ok(p1) =>
      match ReadIdentifier(part, p1, "")
      case Err(_) => None
      case Ok(named) =>
        match Keyword(part, named.0, "FOREIGN KEY")
        case Err(_) => None
        case Ok(p2) =>
          match ReadList(part, p2)
          case Err(_) => None
          case Ok(fks) =>
            match Keyword(part, fks.0, "REFERENCES")
            case Err(_) => None
            case Ok(p3) =>
              match ReadIdentifier(part, p3, "")
              case Err(_) => None
              case Ok(table) =>
                match ReadList(part, table.0)
                case Err(_) => None
                case Ok(pks) => Some(pks.0)
  }

  function Clauses(name: string, fks: seq<string>, schema: string, table: string, pks: seq<string>): string {
    "CONSTRAINT" + (" " + SqlQuoted(name)) + " FOREIGN KEY" + (" (" + NameList(fks) + ")")
    + " REFERENCES" + (" " + TableText(schema, table)) + (" (" + NameList(pks) + ")")
  }

  /** The clauses of a constraint parse, whatever follows, exactly if both lists are of the same length; otherwise the
      exception is at position 0. */
  lemma ClausesParse(name: string, fks: seq<string>, schema: string, table: string, pks: seq<string>, more: string)
    ensures var part := Clauses(name, fks, schema, table, pks) + more;
            ReadConstraint(part) == (if |fks| == |pks| then Ok(Constraint(name, fks, Identifier(schema, table), pks))
                                     else Err(ParseError(0)))
            && ConstraintEnd(part) == Some(|part| - |more|)
  {
    hide Keyword, ReadIdentifier, ReadList, SqlQuoted, TableText, NameList, Names, Ids, ReadConstraint;
    hide ConstraintEnd;
    var n := " " + SqlQuoted(name);
    var l1 := " (" + NameList(fks) + ")";
    var t := " " + TableText(schema, table);
    var l2 := " (" + NameList(pks) + ")";
    var k1, k2, k3 := "" + "CONSTRAINT", " " + "FOREIGN KEY", " " + "REFERENCES";
    assert k1 == "CONSTRAINT" && k2 == " FOREIGN KEY" && k3 == " REFERENCES";
    var b6 := l2 + more;
    var b5 := t + b6;
    var b4 := k3 + b5;
    var b3 := l1 + b4;
    var b2 := k2 + b3;
    var part := Clauses(name, fks, schema, table, pks) + more;
    LineGroups(k1, n, k2, l1, k3, t, l2, more);
    KeywordAt("", "", "CONSTRAINT", n + b2);
    TableTextPlain(name);
    TableAt(k1, "", name, b2);
    KeywordAt(k1 + n, " ", "FOREIGN KEY", b3);
    ListAt(k1 + n + k2, fks, b4);
    KeywordAt(k1 + n + k2 + l1, " ", "REFERENCES", b5);
    TableAt(k1 + n + k2 + l1 + k3, schema, table, b6);
    ListAt(k1 + n + k2 + l1 + k3 + t, pks, more);
    ReadsInOrder(part, |k1|, (|k1 + n|, Identifier("", name)), |k1 + n + k2|,
                 (|k1 + n + k2 + l1|, Ids(fks)), |k1 + n + k2 + l1 + k3|,
                 (|k1 + n + k2 + l1 + k3 + t|, Identifier(schema, table)),
                 (|k1 + n + k2 + l1 + k3 + t + l2|, Ids(pks)));
  }

  /** A printed line parses to the constraint it was printed from, and the parse ends before the actions. */
  lemma LineParses(fk: ForeignKey, comma: bool)
    ensures ReadConstraint(Line(fk, comma)) == Ok(fk.ToConstraint())
    ensures ConstraintEnd(Line(fk, comma)) == Some(|Line(fk, comma)| - |Tail(fk, comma)|)
  {
    hide SqlQuoted, TableText, NameList, ReadConstraint, ConstraintEnd, Tail;
    ClausesParse(fk.name, fk.FkColumns(), fk.schema, fk.table, fk.PkColumns(), Tail(fk, comma));
  }

  lemma LineGroups(k1: string, n: string, k2: string, l1: string, k3: string, t: string, l2: string, b7: string)
    ensures var part := k1 + n + k2 + l1 + k3 + t + l2 + b7;
            part == k1 + n + k2 + l1 + k3 + t + (l2 + b7)
            == k1 + n + k2 + l1 + k3 + (t + (l2 + b7))
            == k1 + n + k2 + l1 + (k3 + (t + (l2 + b7)))
            == k1 + n + k2 + (l1 + (k3 + (t + (l2 + b7))))
            == k1 + n + (k2 + (l1 + (k3 + (t + (l2 + b7)))))
            == k1 + (n + (k2 + (l1 + (k3 + (t + (l2 + b7))))))
            == "" + k1 + (n + (k2 + (l1 + (k3 + (t + (l2 + b7))))))
  {
    Shift(k1 + n + k2 + l1 + k3 + t, l2, b7);
    Shift(k1 + n + k2 + l1 + k3, t, l2 + b7);
    Shift(k1 + n + k2 + l1, k3, t + (l2 + b7));
    Shift(k1 + n + k2, l1, k3 + (t + (l2 + b7)));
    Shift(k1 + n, k2, l1 + (k3 + (t + (l2 + b7))));
    Shift(k1, n, k2 + (l1 + (k3 + (t + (l2 + b7)))));
    assert "" + k1 == k1;
  }

  // ---------------------------------------------------------------- what a cut line reads as

  lemma KeywordStays(part: string, more: string, start: nat, keyword: string)
    requires keyword != "" && Keyword(part, start, keyword).Ok?
    ensures Keyword(part + more, start, keyword) == Keyword(part, start, keyword)
  {
    hide ReadKeyword, AfterSpaces;
    var pos := AfterSpaces(part, start);
    var end := Keyword(part, start, keyword).value;
    assert keyword[0..] == keyword;
    ReadKeywordIff(part, pos, keyword, 0, end);
    assert MatchesAt(part + more, keyword, pos) by { assert (part + more)[pos..end] == part[pos..end]; }
    SpacesStay(part, more, start);
    ReadKeywordIff(part + more, pos, keyword, 0, end);
  }

  lemma SpacesStay(part: string, more: string, start: nat)
    requires AfterSpaces(part, start) < |part|
    ensures AfterSpaces(part + more, start) == AfterSpaces(part, start)
  {
    var pos := AfterSpaces(part, start);
    assert (part + more)[start..pos] == part[start..pos];
    AfterSpacesIs(part + more, start, pos);
  }

  lemma IdentifierStays(part: string, more: string, start: nat)
    requires ReadIdentifier(part, start, "").Ok?
    ensures ReadIdentifier(part + more, start, "") == ReadIdentifier(part, start, "")
  {
    hide ReadIdentifier, DottedText;
    var (end, id) := ReadIdentifier(part, start, "").value;
    ReadIdentifierIff(part, start, "", end, id);
    assert (part + more)[start..end] == part[start..end];
    ReadIdentifierIff(part + more, start, "", end, id);
  }

  lemma ListStays(part: string, more: string, start: nat)
    requires ReadList(part, start).Ok?
    ensures ReadList(part + more, start) == ReadList(part, start)
  {
    hide ReadList, ListBody, AfterSpaces;
    var (end, ids) := ReadList(part, start).value;
    ReadListIff(part, start, end, ids);
    SpacesStay(part, more, start);
    var open := AfterSpaces(part, start);
    assert (part + more)[open + 1..end] == part[open + 1..end];
    ReadListIff(part + more, start, end, ids);
  }

  /** A parse that succeeds does not look past its end: more text changes nothing. */
  lemma EndStays(part: string, more: string)
    requires ReadConstraint(part).Ok?
    ensures ConstraintEnd(part).Some? && ConstraintEnd(part).value <= |part|
    ensures ConstraintEnd(part + more) == ConstraintEnd(part)
  {
    hide Keyword, ReadIdentifier, ReadList, Names;
    var p1 := Keyword(part, 0, "CONSTRAINT").value;
    KeywordStays(part, more, 0, "CONSTRAINT");
    var named := ReadIdentifier(part, p1, "").value;
    IdentifierStays(part, more, p1);
    var p2 := Keyword(part, named.0, "FOREIGN KEY").value;
    KeywordStays(part, more, named.0, "FOREIGN KEY");
    var fks := ReadList(part, p2).value;
    ListStays(part, more, p2);
    var p3 := Keyword(part, fks.0, "REFERENCES").value;
    KeywordStays(part, more, fks.0, "REFERENCES");
    var table := ReadIdentifier(part, p3, "").value;
    IdentifierStays(part, more, p3);
    ListStays(part, more, table.0);
  }

  /** A printed line cut off before its actions is not a constraint. */
  lemma CutLineFails(fk: ForeignKey, comma: bool, part: string)
    requires part <= Line(fk, comma) && |part| < |Line(fk, comma)| - |Tail(fk, comma)|
    ensures ReadConstraint(part).Err?
  {
    hide ReadConstraint, ConstraintEnd, Line, Tail;
    var line := Line(fk, comma);
    LineParses(fk, comma);
    if ReadConstraint(part).Ok? {
      assert line == part + line[|part|..];
      EndStays(part, line[|part|..]);
    }
  }

  /** A named CHECK constraint is taken for a foreign key and fails. */
  lemma CheckFails(name: string, condition: string)
    ensures var line := "CONSTRAINT " + SqlQuoted(name) + " CHECK (" + condition + ")";
            IsKeyLine(line) && ReadConstraint(line).Err?
  {
    hide ReadIdentifier, ReadList, SqlQuoted, Find;
    var n := " " + SqlQuoted(name);
    var rest := " CHECK (" + condition + ")";
    var line := "CONSTRAINT " + SqlQuoted(name) + rest;
    assert line == "CONSTRAINT" + n + rest && line == "" + ("" + "CONSTRAINT") + (n + rest);
    assert line == "CONSTRAINT " + SqlQuoted(name) + " CHECK (" + condition + ")";
    KeywordAt("", "", "CONSTRAINT", n + rest);
    TableTextPlain(name);
    TableAt("CONSTRAINT", "", name, rest);
    var end := |"CONSTRAINT" + n|;
    assert line[end] == ' ' && line[end + 1] == 'C';
    assert line[end..end + 1] == " ";
    AfterSpacesIs(line, end, end + 1);
  }

  lemma TableTextPlain(s: string)
    ensures TableText("", s) == SqlQuoted(s)
  {
  }
}
