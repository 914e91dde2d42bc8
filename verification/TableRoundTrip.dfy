/** Whole table definitions: every foreign key of the text is read back, and nothing else. */
module TableRoundTrip {
  import opened Text
  import opened Quoting
  import opened ImportedKeys
  import opened ConstraintText
  import opened ActionSearch
  import opened KeyOrder
  import opened DefinitionLines

  /** The lines of a definition: foreign keys, columns, primary keys and other indexes as the server prints them, and
      any other line. */
  datatype TableLine =
    | Other(text: string)
    | Key(indent: string, fk: ForeignKey, comma: bool)
    | Column(indent: string, name: string, definition: string)
    | Primary(indent: string, columns: seq<string>, comma: bool)
    | Index(indent: string, unique: bool, name: string, columns: seq<string>, comma: bool)

  function LineText(l: TableLine): string {
    match l
    case Other(text) => text
    case Key(indent, fk, comma) => indent + Line(fk, comma)
    case Column(indent, name, definition) => indent + ColumnLine(name, definition)
    case Primary(indent, columns, comma) => indent + PrimaryLine(columns, comma)
    case Index(indent, unique, name, columns, comma) => indent + IndexLine(unique, name, columns, comma)
  }

  function LineTexts(lines: seq<TableLine>): (r: seq<string>)
    ensures |r| == |lines|
  {
    seq(|lines|, i requires 0 <= i < |lines| => LineText(lines[i]))
  }

  predicate AllAbsent(c: char, names: seq<string>) {
    forall i :: 0 <= i < |names| ==> Absent(c, names[i])
  }

  predicate NewlineFree(fk: ForeignKey) {
    Absent('\n', fk.name) && AllAbsent('\n', fk.FkColumns()) && Absent('\n', fk.schema) && Absent('\n', fk.table)
    && AllAbsent('\n', fk.PkColumns())
  }

  /** One line of text, but for newlines in the names of a foreign key. */
  predicate Printed(l: TableLine) {
    match l
    case Other(text) => Absent('\n', text)
    case Key(indent, _, _) => AllSpaces(indent) && Absent('\n', indent)
    case Column(indent, _, _) => AllSpaces(indent) && Absent('\n', LineText(l))
    case Primary(indent, columns, _) => AllSpaces(indent) && Absent('\n', LineText(l)) && columns != []
    case Index(indent, _, _, columns, _) => AllSpaces(indent) && Absent('\n', LineText(l)) && columns != []
  }

  ghost predicate AllPrinted(lines: seq<TableLine>) {
    forall i :: 0 <= i < |lines| ==> Printed(lines[i])
  }

  /** The parse gets past the line. A foreign key must not be cut short by a newline in a name; columns and indexes must
      not hold FOREIGN KEY in a name or definition; any other line that starts with CONSTRAINT or holds FOREIGN KEY must
      read as a constraint. */
  ghost predicate Reads(l: TableLine) {
    match l
    case Other(text) => TakenForKey(text) ==> ReadConstraint(Trim(text)).Ok?
    case Key(_, fk, _) => NewlineFree(fk)
    case Column(_, name, definition) => !Contains(name, "FOREIGN KEY") && !Contains(definition, "FOREIGN KEY")
    case Primary(_, columns, _) => !SomeContains(columns, "FOREIGN KEY")
    case Index(_, _, name, columns, _) => !Contains(name, "FOREIGN KEY") && !SomeContains(columns, "FOREIGN KEY")
  }

  ghost predicate AllRead(lines: seq<TableLine>) {
    forall i :: 0 <= i < |lines| ==> Reads(lines[i])
  }

  /** The line adds no row of its own to those of the foreign keys. */
  ghost predicate Silent(l: TableLine) {
    l.Other? && TakenForKey(l.text) ==>
      ReadConstraint(Trim(l.text)).Ok? && ReadConstraint(Trim(l.text)).value.pkColumns == []
  }

  ghost predicate AllSilent(lines: seq<TableLine>) {
    forall i :: 0 <= i < |lines| ==> Silent(lines[i])
  }

  /** No identifier of the line confuses the action search. */
  ghost predicate Clear(l: TableLine) {
    l.Key? && l.fk.columns != [] ==>
      Unconfused(l.fk, ON_UPDATE, l.fk.onUpdate) && Unconfused(l.fk, ON_DELETE, l.fk.onDelete)
  }

  ghost predicate AllClear(lines: seq<TableLine>) {
    forall i :: 0 <= i < |lines| ==> Clear(lines[i])
  }

  function RowsOf(l: TableLine, catalog: string, tableName: string): seq<Row> {
    if l.Key? then ExpectedRows(l.fk, catalog, tableName) else []
  }

  /** The rows of all foreign keys of the definition. */
  function KeysOf(lines: seq<TableLine>, catalog: string, tableName: string): seq<Row> {
    if lines == [] then [] else RowsOf(lines[0], catalog, tableName) + KeysOf(lines[1..], catalog, tableName)
  }

  // ---------------------------------------------------------------- newlines

  lemma {:induction false} DoubledNewline(s: string)
    ensures Absent('\n', Doubled(s)) <==> Absent('\n', s)
  {
    if s != [] {
      DoubledNewline(s[1..]);
      var head := if s[0] == TICK then [TICK, TICK] else [s[0]];
      AbsentConcat('\n', head, Doubled(s[1..]));
      AbsentConcat('\n', [s[0]], s[1..]);
      assert s == [s[0]] + s[1..];
    }
  }

  lemma QuotedNewline(s: string)
    ensures Absent('\n', SqlQuoted(s)) <==> Absent('\n', s)
  {
    hide Doubled;
    DoubledNewline(s);
    assert Absent('\n', [TICK]);
    Three([TICK], Doubled(s), [TICK]);
  }

  lemma {:induction false} NameListNewline(names: seq<string>)
    ensures Absent('\n', NameList(names)) <==> AllAbsent('\n', names)
  {
    hide SqlQuoted;
    if names != [] {
      QuotedNewline(names[0]);
      AllAbsentFirst('\n', names);
      if |names| > 1 {
        NameListNewline(names[1..]);
        assert Absent('\n', ", ");
        Three(SqlQuoted(names[0]), ", ", NameList(names[1..]));
      }
    }
  }

  lemma AllAbsentFirst(c: char, names: seq<string>)
    requires names != []
    ensures AllAbsent(c, names) <==> Absent(c, names[0]) && AllAbsent(c, names[1..])
  {
    hide Absent;
    if Absent(c, names[0]) && AllAbsent(c, names[1..]) {
      forall i | 0 <= i < |names| ensures Absent(c, names[i]) {
        assert i > 0 ==> names[i] == names[1..][i - 1];
      }
    }
  }

  lemma TableTextNewline(schema: string, table: string)
    ensures Absent('\n', TableText(schema, table)) <==> Absent('\n', schema) && Absent('\n', table)
  {
    hide SqlQuoted;
    QuotedNewline(schema);
    QuotedNewline(table);
    assert Absent('\n', ".");
    Three(SqlQuoted(schema), ".", SqlQuoted(table));
  }

  lemma TailNewline(fk: ForeignKey, comma: bool)
    ensures Absent('\n', Tail(fk, comma))
  {
    ClauseNewline(ON_DELETE, fk.onDelete);
    ClauseNewline(ON_UPDATE, fk.onUpdate);
    var back := if comma then "," else "";
    assert Absent('\n', back);
    AbsentConcat('\n', ActionClause(ON_DELETE, fk.onDelete), ActionClause(ON_UPDATE, fk.onUpdate));
    AbsentConcat('\n', ActionClause(ON_DELETE, fk.onDelete) + ActionClause(ON_UPDATE, fk.onUpdate), back);
  }

  lemma ClauseNewline(keyword: string, a: Option<Action>)
    requires keyword == ON_DELETE || keyword == ON_UPDATE
    ensures Absent('\n', ActionClause(keyword, a))
  {
    if a.Some? {
      assert |keyword| == 10 && Absent('\n', " " + keyword);
      ActionNewline(a.value);
      AbsentConcat('\n', " " + keyword, ActionText(a.value));
    }
  }

  lemma ActionNewline(a: Action)
    ensures Absent('\n', ActionText(a))
  {
    match a
    case Restrict => assert |ActionText(a)| == 8;
    case Cascade => assert |ActionText(a)| == 7;
    case SetNull => assert |ActionText(a)| == 8;
    case NoAction => assert |ActionText(a)| == 9;
  }

  lemma LineNewline(fk: ForeignKey, comma: bool)
    ensures Absent('\n', Line(fk, comma)) <==> NewlineFree(fk)
  {
    hide SqlQuoted, NameList, TableText, Tail, Absent;
    QuotedNewline(fk.name);
    NameListNewline(fk.FkColumns());
    TableTextNewline(fk.schema, fk.table);
    NameListNewline(fk.PkColumns());
    TailNewline(fk, comma);
    JoinedNewline(SqlQuoted(fk.name), NameList(fk.FkColumns()), TableText(fk.schema, fk.table),
                  NameList(fk.PkColumns()), Tail(fk, comma));
    LineRegroups(SqlQuoted(fk.name), NameList(fk.FkColumns()), TableText(fk.schema, fk.table),
                 NameList(fk.PkColumns()), Tail(fk, comma));
  }

  lemma JoinedNewline(n: string, l1: string, t: string, l2: string, tail: string)
    requires Absent('\n', tail)
    ensures Absent('\n', "CONSTRAINT " + n
                         + (" FOREIGN KEY (" + l1 + (") REFERENCES " + t + (" (" + l2 + (")" + tail)))))
       <==> Absent('\n', n) && Absent('\n', l1) && Absent('\n', t) && Absent('\n', l2)
  {
    assert Absent('\n', ")") && Absent('\n', " (") && Absent('\n', ") REFERENCES ") && Absent('\n', " FOREIGN KEY (")
      && Absent('\n', "CONSTRAINT ");
    hide Absent;
    AbsentConcat('\n', ")", tail);
    var d := ")" + tail;
    Three(" (", l2, d);
    var c := " (" + l2 + d;
    Three(") REFERENCES ", t, c);
    var b := ") REFERENCES " + t + c;
    Three(" FOREIGN KEY (", l1, b);
    Three("CONSTRAINT ", n, " FOREIGN KEY (" + l1 + b);
  }

  lemma Three(x: string, y: string, z: string)
    ensures Absent('\n', x + y + z) <==> Absent('\n', x) && Absent('\n', y) && Absent('\n', z)
  {
    hide Absent;
    AbsentConcat('\n', x + y, z);
    AbsentConcat('\n', x, y);
  }

  // ---------------------------------------------------------------- trimming

  lemma EndsInk(fk: ForeignKey, comma: bool)
    ensures var s := Line(fk, comma); s != "" && !IsSpace(s[0]) && !IsSpace(s[|s| - 1])
  {
    hide SqlQuoted, NameList, TableText;
    var e := ")" + Tail(fk, comma);
    LineRegroups(SqlQuoted(fk.name), NameList(fk.FkColumns()), TableText(fk.schema, fk.table),
                 NameList(fk.PkColumns()), Tail(fk, comma));
    LastInk(fk, comma);
  }

  lemma LastInk(fk: ForeignKey, comma: bool)
    ensures var e := ")" + Tail(fk, comma); !IsSpace(e[|e| - 1])
  {
    if !comma {
      if fk.onUpdate.Some? {
        ActionInk(fk.onUpdate.value);
      } else if fk.onDelete.Some? {
        ActionInk(fk.onDelete.value);
      }
    }
  }

  lemma ActionInk(a: Action)
    ensures var s := ActionText(a); s != "" && !IsSpace(s[|s| - 1])
  {
  }

  // ---------------------------------------------------------------- the table

  /** How the search ranks a rule, by its text in the row. */
  function RuleRank(rule: string): nat {
    if rule == "3" then 3 else if rule == "2" then 2 else if rule == "0" then 1 else 0
  }

  function Weight(r: Row): nat {
    RuleRank(r.updateRule) + RuleRank(r.deleteRule)
  }

  lemma RuleRankIs(a: Action)
    ensures RuleRank(RuleText(a)) == Rank(a)
  {
  }

  /** A row is right, or a rule in it is one that the search prefers to the right one. */
  predicate RightOrHeavier(found: Row, right: Row) {
    found == right || Weight(found) > Weight(right)
  }

  ghost predicate RightOrHeavierAll(found: seq<Row>, right: seq<Row>) {
    |found| == |right| && forall i :: 0 <= i < |right| ==> RightOrHeavier(found[i], right[i])
  }

  /** The rows of a line that the parse gets past. */
  ghost predicate RowsFit(l: TableLine, rows: seq<Row>, catalog: string, tableName: string) {
    var right := RowsOf(l, catalog, tableName);
    && |rows| >= |right| && (|rows| == |right| <==> Silent(l))
    && (Silent(l) ==> RightOrHeavierAll(rows, right) && (rows == right <==> Clear(l)))
  }

  lemma OtherReads(text: string, catalog: string, tableName: string)
    ensures var r := LineRows(Trim(text), catalog, tableName);
            (r.Ok? <==> Reads(Other(text))) && (r.Ok? ==> RowsFit(Other(text), r.value, catalog, tableName))
  {
    hide IsKeyLine, Trim, ReadConstraint, ActionIn, TakenForKey;
    TakenForKeyIff(text);
  }

  /** Columns and indexes give no rows, or fail. */
  lemma NamedReads(l: TableLine, catalog: string, tableName: string)
    requires Printed(l) && (l.Column? || l.Primary? || l.Index?)
    ensures var r := LineRows(Trim(LineText(l)), catalog, tableName);
            (r.Ok? <==> Reads(l)) && (r.Ok? ==> r.value == [])
  {
    hide Trim, LineRows, Contains, SomeContains, NameList, SqlQuoted;
    match l
    case Column(indent, name, definition) =>
      assert ColumnLine(name, definition)[0] == TICK;
      PassedOver(indent, ColumnLine(name, definition), catalog, tableName);
      ColumnContains(name, definition);
    case Primary(indent, columns, comma) =>
      assert PrimaryLine(columns, comma)[0] == 'P';
      PassedOver(indent, PrimaryLine(columns, comma), catalog, tableName);
      PrimaryContains(columns, comma);
    case Index(indent, unique, name, columns, comma) =>
      assert IndexLine(unique, name, columns, comma)[0] == if unique then 'U' else 'K';
      PassedOver(indent, IndexLine(unique, name, columns, comma), catalog, tableName);
      IndexContains(unique, name, columns, comma);
  }

  lemma KeyReads(indent: string, fk: ForeignKey, comma: bool, catalog: string, tableName: string)
    requires AllSpaces(indent)
    ensures var r := LineRows(Trim(indent + Line(fk, comma)), catalog, tableName);
            r.Ok? && RowsFit(Key(indent, fk, comma), r.value, catalog, tableName)
  {
    hide ReadConstraint, Unconfused, Line, Trim, LineRows, ActionIn, IsKeyLine, Decimal, RightOrHeavier;
    var line := Line(fk, comma);
    EndsInk(fk, comma);
    TrimIndented(indent, line);
    LineReads(fk, comma, catalog, tableName);
    if fk.columns != [] {
      LineRoundTripIff(fk, comma, catalog, tableName);
      UpdateRuleIff(fk, comma);
      DeleteRuleIff(fk, comma);
      HeavierRows(fk, ActionIn(line, ON_UPDATE), ActionIn(line, ON_DELETE), catalog, tableName);
    }
  }

  lemma HeavierRows(fk: ForeignKey, u: Action, d: Action, catalog: string, tableName: string)
    requires Rank(Effective(fk.onUpdate)) <= Rank(u) && Rank(Effective(fk.onDelete)) <= Rank(d)
    ensures RightOrHeavierAll(RowsWith(fk, u, d, catalog, tableName), ExpectedRows(fk, catalog, tableName))
  {
    hide Decimal, RuleRank, RuleText;
    RuleRankIs(u);
    RuleRankIs(d);
    RuleRankIs(Effective(fk.onUpdate));
    RuleRankIs(Effective(fk.onDelete));
  }

  // ---------------------------------------------------------------- a name with a newline in it

  lemma {:induction false} RTrimKeeps(s: string, j: nat)
    requires j < |s| && !IsSpace(s[j])
    ensures RTrim(s) <= s && |RTrim(s)| > j
  {
    if IsSpace(s[|s| - 1]) {
      RTrimKeeps(s[..|s| - 1], j);
    }
  }

  lemma {:induction false} FirstNewline(s: string) returns (k: nat)
    requires !Absent('\n', s)
    ensures k < |s| && s[k] == '\n' && Absent('\n', s[..k])
  {
    if s[0] == '\n' {
      k := 0;
    } else {
      assert !Absent('\n', s[1..]);
      var j := FirstNewline(s[1..]);
      k := j + 1;
      assert s[..k] == [s[0]] + s[1..][..j];
    }
  }

  lemma {:induction false} LTrimIndent(indent: string, s: string)
    requires AllSpaces(indent) && s != "" && !IsSpace(s[0])
    ensures LTrim(indent + s) == s
  {
    if indent == "" {
      assert indent + s == s;
    } else {
      assert (indent + s)[1..] == indent[1..] + s;
      LTrimIndent(indent[1..], s);
    }
  }

  /** What is left of a printed line before a newline in one of its names does not parse. */
  lemma FragmentFails(indent: string, fk: ForeignKey, comma: bool, k: nat, catalog: string, tableName: string)
    requires AllSpaces(indent) && k < |Line(fk, comma)| && Line(fk, comma)[k] == '\n'
    ensures LineRows(Trim(indent + Line(fk, comma)[..k]), catalog, tableName).Err?
  {
    hide LineRows, ReadConstraint, Line, Tail, LTrim, RTrim, Find;
    var line := Line(fk, comma);
    LineHead(fk, comma);
    var part := line[..k];
    assert forall i :: 0 <= i < 10 ==> line[i] == "CONSTRAINT"[i];
    assert k >= 10;
    assert part[0] == 'C' && part[9] == 'T';
    LTrimIndent(indent, part);
    RTrimKeeps(part, 9);
    var trimmed := RTrim(part);
    assert "CONSTRAINT" <= trimmed;
    NewlineBeforeTail(fk, comma, k);
    CutLineFails(fk, comma, trimmed);
    FailsAsLine(trimmed, catalog, tableName);
  }

  lemma FailsAsLine(part: string, catalog: string, tableName: string)
    requires "CONSTRAINT" <= part && ReadConstraint(part).Err?
    ensures LineRows(part, catalog, tableName).Err?
  {
  }

  lemma LineHead(fk: ForeignKey, comma: bool)
    ensures "CONSTRAINT" <= Line(fk, comma) && |Line(fk, comma)| >= |Tail(fk, comma)|
    ensures Line(fk, comma)[|Line(fk, comma)| - |Tail(fk, comma)|..] == Tail(fk, comma)
  {
    hide SqlQuoted, NameList, TableText, Tail;
    var head := "CONSTRAINT" + (" " + SqlQuoted(fk.name)) + " FOREIGN KEY" + (" (" + NameList(fk.FkColumns()) + ")")
      + " REFERENCES" + (" " + TableText(fk.schema, fk.table)) + (" (" + NameList(fk.PkColumns()) + ")");
    assert Line(fk, comma) == head + Tail(fk, comma);
  }

  lemma NewlineBeforeTail(fk: ForeignKey, comma: bool, k: nat)
    requires k < |Line(fk, comma)| && Line(fk, comma)[k] == '\n'
    ensures k < |Line(fk, comma)| - |Tail(fk, comma)|
  {
    hide Line, Tail;
    LineHead(fk, comma);
    TailNewline(fk, comma);
    var line, start := Line(fk, comma), |Line(fk, comma)| - |Tail(fk, comma)|;
    forall i | start <= i < |line| ensures line[i] != '\n' {
      assert line[i] == line[start..][i - start];
    }
  }

  // ---------------------------------------------------------------- all lines

  ghost function LineResult(l: TableLine, catalog: string, tableName: string): Result<seq<Row>> {
    TableRows(Fields(LineText(l), '\n'), catalog, tableName)
  }

  lemma OneRow(text: string, catalog: string, tableName: string)
    ensures TableRows([text], catalog, tableName) == LineRows(Trim(text), catalog, tableName)
  {
    var r := LineRows(Trim(text), catalog, tableName);
    assert TableRows([text][1..], catalog, tableName) == Ok([]);
    assert r.Ok? ==> r.value + [] == r.value;
  }

  lemma FirstFails(text: string, more: seq<string>, catalog: string, tableName: string)
    requires LineRows(Trim(text), catalog, tableName).Err?
    ensures TableRows([text] + more, catalog, tableName).Err?
  {
  }

  /** One line of the definition, however many lines of text it makes. */
  lemma LineFits(l: TableLine, catalog: string, tableName: string)
    requires Printed(l)
    ensures var r := LineResult(l, catalog, tableName);
            (r.Ok? <==> Reads(l)) && (r.Ok? ==> RowsFit(l, r.value, catalog, tableName))
  {
    hide TableRows, LineRows, Line, Trim, Fields, RowsFit, NewlineFree, ReadConstraint, TakenForKey;
    hide ColumnLine, PrimaryLine, IndexLine;
    var text := LineText(l);
    if !l.Key? {
      FieldsOfAbsent(text, '\n');
      OneRow(text, catalog, tableName);
      if l.Other? {
        OtherReads(text, catalog, tableName);
      } else {
        NamedReads(l, catalog, tableName);
        NoRowsFit(l, catalog, tableName);
      }
    } else {
      var indent, fk, comma := l.indent, l.fk, l.comma;
      var line := Line(fk, comma);
      LineNewline(fk, comma);
      if NewlineFree(fk) {
        AbsentConcat('\n', indent, line);
        FieldsOfAbsent(text, '\n');
        OneRow(text, catalog, tableName);
        KeyReads(indent, fk, comma, catalog, tableName);
      } else {
        var k := FirstNewline(line);
        AbsentConcat('\n', indent, line[..k]);
        assert text == (indent + line[..k]) + ['\n'] + line[k + 1..];
        FieldsOfFirst(indent + line[..k], line[k + 1..], '\n');
        FragmentFails(indent, fk, comma, k, catalog, tableName);
        FirstFails(indent + line[..k], Fields(line[k + 1..], '\n'), catalog, tableName);
      }
    }
  }

  lemma NoRowsFit(l: TableLine, catalog: string, tableName: string)
    requires !l.Key? && !l.Other?
    ensures RowsFit(l, [], catalog, tableName)
  {
  }

  lemma {:induction false} TableRowsConcat(a: seq<string>, b: seq<string>, catalog: string, tableName: string)
    ensures var ra, rb := TableRows(a, catalog, tableName), TableRows(b, catalog, tableName);
            var r := TableRows(a + b, catalog, tableName);
            (r.Ok? <==> ra.Ok? && rb.Ok?) && (r.Ok? ==> r.value == ra.value + rb.value)
  {
    hide LineRows, Trim;
    if a == [] {
      assert a + b == b;
    } else {
      assert (a + b)[1..] == a[1..] + b;
      TableRowsConcat(a[1..], b, catalog, tableName);
    }
  }

  /** The result of a definition, line by line. */
  lemma DefinitionConcat(lines: seq<TableLine>, catalog: string, tableName: string)
    requires |lines| > 1
    ensures var r := TableRows(Fields(Definition(lines), '\n'), catalog, tableName);
            var first := LineResult(lines[0], catalog, tableName);
            var rest := TableRows(Fields(Definition(lines[1..]), '\n'), catalog, tableName);
            (r.Ok? <==> first.Ok? && rest.Ok?) && (r.Ok? ==> r.value == first.value + rest.value)
  {
    hide TableRows, Fields, LineText;
    assert LineTexts(lines)[1..] == LineTexts(lines[1..]);
    FieldsOfBoth(LineText(lines[0]), Definition(lines[1..]), '\n');
    TableRowsConcat(Fields(LineText(lines[0]), '\n'), Fields(Definition(lines[1..]), '\n'), catalog, tableName);
  }

  /** The text of the definition. */
  function Definition(lines: seq<TableLine>): string {
    Join(LineTexts(lines), '\n')
  }

  /** The rows found against the rows of the foreign keys. */
  ghost predicate TableFits(lines: seq<TableLine>, found: seq<Row>, catalog: string, tableName: string) {
    var right := KeysOf(lines, catalog, tableName);
    && |found| >= |right| && (|found| == |right| <==> AllSilent(lines))
    && (AllSilent(lines) ==> RightOrHeavierAll(found, right) && (found == right <==> AllClear(lines)))
  }

  lemma {:induction false} LinesRead(lines: seq<TableLine>, catalog: string, tableName: string)
    requires lines != [] && AllPrinted(lines)
    ensures var r := TableRows(Fields(Definition(lines), '\n'), catalog, tableName);
            (r.Ok? <==> AllRead(lines)) && (r.Ok? ==> TableFits(lines, r.value, catalog, tableName))
    decreases |lines|
  {
    hide TableRows, Fields, LineText, LineResult, Definition, RowsFit, TableFits, Reads;
    LineFits(lines[0], catalog, tableName);
    if |lines| == 1 {
      OneLineTable(lines, catalog, tableName);
    } else {
      assert AllPrinted(lines[1..]);
      LinesRead(lines[1..], catalog, tableName);
      DefinitionConcat(lines, catalog, tableName);
      assert AllRead(lines) <==> Reads(lines[0]) && AllRead(lines[1..]) by { ReadFirst(lines); }
      if AllRead(lines) {
        var first := LineResult(lines[0], catalog, tableName).value;
        var rest := TableRows(Fields(Definition(lines[1..]), '\n'), catalog, tableName).value;
        FitsJoin(lines, first, rest, catalog, tableName);
      }
    }
  }

  lemma OneLineTable(lines: seq<TableLine>, catalog: string, tableName: string)
    requires |lines| == 1
    ensures TableRows(Fields(Definition(lines), '\n'), catalog, tableName) == LineResult(lines[0], catalog, tableName)
    ensures AllRead(lines) <==> Reads(lines[0])
    ensures forall rows :: RowsFit(lines[0], rows, catalog, tableName) ==> TableFits(lines, rows, catalog, tableName)
  {
    hide TableRows, Fields, LineText, Reads, Silent, Clear, RowsOf, RightOrHeavier;
    assert KeysOf(lines, catalog, tableName) == RowsOf(lines[0], catalog, tableName) by {
      assert lines[1..] == [] && KeysOf([], catalog, tableName) == [];
    }
    assert lines == [lines[0]];
    assert AllSilent(lines) <==> Silent(lines[0]);
    assert AllClear(lines) <==> Clear(lines[0]);
  }

  lemma ReadFirst(lines: seq<TableLine>)
    requires lines != []
    ensures AllRead(lines) <==> Reads(lines[0]) && AllRead(lines[1..])
    ensures AllSilent(lines) <==> Silent(lines[0]) && AllSilent(lines[1..])
    ensures AllClear(lines) <==> Clear(lines[0]) && AllClear(lines[1..])
  {
    hide Reads, Silent, Clear;
    assert forall i :: 0 < i < |lines| ==> lines[i] == lines[1..][i - 1];
  }

  lemma FitsJoin(lines: seq<TableLine>, first: seq<Row>, rest: seq<Row>, catalog: string, tableName: string)
    requires lines != [] && RowsFit(lines[0], first, catalog, tableName)
    requires TableFits(lines[1..], rest, catalog, tableName)
    ensures TableFits(lines, first + rest, catalog, tableName)
  {
    hide Silent, Clear, RowsOf, RightOrHeavierAll;
    ReadFirst(lines);
    if AllSilent(lines) {
      Joined(first, RowsOf(lines[0], catalog, tableName), rest, KeysOf(lines[1..], catalog, tableName));
    }
  }

  lemma Joined(a: seq<Row>, x: seq<Row>, b: seq<Row>, y: seq<Row>)
    requires RightOrHeavierAll(a, x) && RightOrHeavierAll(b, y)
    ensures RightOrHeavierAll(a + b, x + y)
    ensures a + b == x + y <==> a == x && b == y
  {
    hide RightOrHeavier;
    if a + b == x + y {
      assert a == (a + b)[..|a|] && x == (x + y)[..|x|];
      assert b == (a + b)[|a|..] && y == (x + y)[|x|..];
    }
  }

  /** The parse of a definition fails exactly if some line does not read: it is taken for a foreign key and is none, or
      is cut short by a newline in a name. It gives the rows of the foreign keys, in order, exactly if moreover the
      other lines add no rows and no line confuses the action search. */
  lemma TableRoundTripIff(lines: seq<TableLine>, catalog: string, tableName: string)
    requires lines != [] && AllPrinted(lines)
    ensures var r := TableRows(Fields(Definition(lines), '\n'), catalog, tableName);
            (r.Err? <==> !AllRead(lines))
            && (r == Ok(KeysOf(lines, catalog, tableName))
                <==> AllRead(lines) && AllSilent(lines) && AllClear(lines))
  {
    hide TableRows, KeysOf, AllPrinted, AllRead, AllSilent, AllClear, Definition, Fields, RightOrHeavierAll;
    LinesRead(lines, catalog, tableName);
  }

  /** One named CHECK constraint anywhere in a definition makes the parse of the whole definition fail. */
  lemma CheckExample(before: seq<TableLine>, name: string, condition: string, after: seq<TableLine>,
                     catalog: string, tableName: string)
    requires AllPrinted(before) && AllPrinted(after) && Absent('\n', name) && Absent('\n', condition)
    ensures var check := Other("  CONSTRAINT " + SqlQuoted(name) + " CHECK (" + condition + ")");
            TableRows(Fields(Definition(before + [check] + after), '\n'), catalog, tableName).Err?
  {
    hide TableRows, Fields, Definition, SqlQuoted, Absent, Trim, ReadConstraint, IsKeyLine, Contains;
    var line := "CONSTRAINT " + SqlQuoted(name) + " CHECK (" + condition + ")";
    var check := Other("  CONSTRAINT " + SqlQuoted(name) + " CHECK (" + condition + ")");
    assert check.text == "  " + line;
    assert !Reads(check) by {
      CheckFails(name, condition);
      TrimIndented("  ", line);
      assert "CONSTRAINT" <= line;
    }
    assert Printed(check) by { CheckIsLine(name, condition); }
    var lines := before + [check] + after;
    assert lines[|before|] == check;
    assert AllPrinted(lines);
    TableRoundTripIff(lines, catalog, tableName);
  }

  /** An ordinary definition: columns, a primary key, an index and a foreign key. */
  function OrdinaryLines(): seq<TableLine> {
    [Other("CREATE TABLE `c` ("), Column("  ", "id", "int(11) NOT NULL,"), Primary("  ", ["id"], true),
     Index("  ", false, "k", ["a"], true),
     Key("  ", ForeignKey("k", [("a", "b")], "", "t", Some(Cascade), None), false), Other(") ENGINE=InnoDB")]
  }

  lemma NotTaken(s: string, i: nat)
    requires s != "" && !IsSpace(s[0]) && !IsSpace(s[|s| - 1]) && Absent('F', s)
    requires i < 10 && i < |s| && s[i] != "CONSTRAINT"[i]
    ensures !TakenForKey(s)
  {
    hide Trim, Contains;
    PlainTrim(s);
    NoFirst(s, "FOREIGN KEY");
  }

  lemma OrdinaryReads()
    ensures AllRead(OrdinaryLines()) && AllSilent(OrdinaryLines())
  {
    hide Contains, NewlineFree, TakenForKey, ReadConstraint, Trim;
    NotTaken("CREATE TABLE `c` (", 1);
    NotTaken(") ENGINE=InnoDB", 0);
    OrdinaryNames();
    OrdinaryKeyFree();
  }

  lemma OrdinaryNames()
    ensures var p := "FOREIGN KEY";
            !Contains("id", p) && !Contains("k", p) && !Contains("int(11) NOT NULL,", p)
            && !SomeContains(["id"], p) && !SomeContains(["a"], p)
  {
    hide Contains;
    var p := "FOREIGN KEY";
    TooShort("id", p);
    TooShort("k", p);
    TooShort("a", p);
    assert Absent('F', "int(11) NOT NULL,");
    NoFirst("int(11) NOT NULL,", p);
  }

  lemma OrdinaryKeyFree()
    ensures NewlineFree(OrdinaryLines()[4].fk)
  {
  }

  lemma PlainTrim(s: string)
    requires s != "" && !IsSpace(s[0]) && !IsSpace(s[|s| - 1])
    ensures Trim(s) == s
  {
    TrimIndented("", s);
    assert "" + s == s;
  }

  lemma OrdinaryColumn()
    ensures Absent('\n', "  " + ColumnLine("id", "int(11) NOT NULL,"))
  {
    hide SqlQuoted;
    QuotedNewline("id");
    assert Absent('\n', " int(11) NOT NULL,") && Absent('\n', "  ");
    assert " " + "int(11) NOT NULL," == " int(11) NOT NULL,";
    hide Absent;
    AbsentConcat('\n', SqlQuoted("id"), " int(11) NOT NULL,");
    AbsentConcat('\n', "  ", ColumnLine("id", "int(11) NOT NULL,"));
  }

  lemma OrdinaryPrimary()
    ensures Absent('\n', "  " + PrimaryLine(["id"], true))
  {
    hide NameList;
    NameListNewline(["id"]);
    assert AllAbsent('\n', ["id"]);
    assert Absent('\n', "PRIMARY KEY (") && Absent('\n', "  ") && Absent('\n', "),") && ")" + "," == "),";
    hide Absent;
    Three("PRIMARY KEY (", NameList(["id"]), "),");
    AbsentConcat('\n', "  ", PrimaryLine(["id"], true));
  }

  lemma OrdinaryIndex()
    ensures Absent('\n', "  " + IndexLine(false, "k", ["a"], true))
  {
    hide NameList, SqlQuoted;
    QuotedNewline("k");
    NameListNewline(["a"]);
    assert AllAbsent('\n', ["a"]);
    assert Absent('\n', "KEY ") && Absent('\n', " (") && Absent('\n', "  ") && Absent('\n', "),") && ")" + "," == "),";
    hide Absent;
    Three(" (", NameList(["a"]), "),");
    Three("KEY ", SqlQuoted("k"), " (" + NameList(["a"]) + "),");
    AbsentConcat('\n', "  ", IndexLine(false, "k", ["a"], true));
  }

  lemma OrdinaryPrinted()
    ensures AllPrinted(OrdinaryLines())
  {
    assert Absent('\n', "CREATE TABLE `c` (") && Absent('\n', ") ENGINE=InnoDB") && Absent('\n', "  ");
    hide Absent, ColumnLine, PrimaryLine, IndexLine, Line;
    OrdinaryColumn();
    OrdinaryPrimary();
    OrdinaryIndex();
  }

  lemma ShortNames(p: string)
    requires |p| > 14
    ensures !Mentions(OrdinaryLines()[4].fk, p)
  {
    hide Contains;
    TooShort("k", p);
    TooShort("a", p);
    TooShort("b", p);
    TooShort("", p);
    TooShort("t", p);
  }

  lemma OrdinaryClear()
    ensures AllClear(OrdinaryLines())
  {
    hide Mentions, ActionText;
    var fk := OrdinaryLines()[4].fk;
    forall prefix, a: Action | prefix == ON_UPDATE || prefix == ON_DELETE
      ensures !Mentions(fk, prefix + ActionText(a))
    {
      PatternShape(prefix, a);
      ShortNames(prefix + ActionText(a));
    }
  }

  lemma OrdinaryKeys(catalog: string, tableName: string)
    ensures KeysOf(OrdinaryLines(), catalog, tableName)
         == [Row(catalog, "t", "b", catalog, tableName, "a", "1", "1", "0", "k", "7")]
  {
    var lines := OrdinaryLines();
    var keys := RowsOf(lines[4], catalog, tableName);
    assert Decimal(1) == "1";
    assert keys == [Row(catalog, "t", "b", catalog, tableName, "a", "1", "1", "0", "k", "7")];
    KeysSkip(lines, catalog, tableName);
    KeysSkip(lines[1..], catalog, tableName);
    KeysSkip(lines[2..], catalog, tableName);
    KeysSkip(lines[3..], catalog, tableName);
    KeysSkip(lines[5..], catalog, tableName);
    assert lines[1..][1..] == lines[2..] && lines[2..][1..] == lines[3..] && lines[3..][1..] == lines[4..]
      && lines[4..][1..] == lines[5..] && lines[5..][1..] == [];
    assert KeysOf(lines[4..], catalog, tableName) == keys + KeysOf(lines[5..], catalog, tableName);
    assert keys + [] == keys;
  }

  lemma KeysSkip(lines: seq<TableLine>, catalog: string, tableName: string)
    requires lines != [] && !lines[0].Key?
    ensures KeysOf(lines, catalog, tableName) == KeysOf(lines[1..], catalog, tableName)
    ensures KeysOf([], catalog, tableName) == []
  {
    assert [] + KeysOf(lines[1..], catalog, tableName) == KeysOf(lines[1..], catalog, tableName);
  }

  /** The lines that nearly every definition has are passed over, and the key among them is found. */
  lemma OrdinaryExample(catalog: string, tableName: string)
    ensures TableRows(Fields(Definition(OrdinaryLines()), '\n'), catalog, tableName)
         == Ok([Row(catalog, "t", "b", catalog, tableName, "a", "1", "1", "0", "k", "7")])
  {
    hide TableRows, Fields, Definition, AllRead, AllSilent, AllClear, AllPrinted, KeysOf;
    OrdinaryPrinted();
    OrdinaryReads();
    OrdinaryClear();
    OrdinaryKeys(catalog, tableName);
    TableRoundTripIff(OrdinaryLines(), catalog, tableName);
  }

  /** So does a newline in a name. */
  lemma NewlineExample(catalog: string, tableName: string)
    ensures var fk := ForeignKey("a\nb", [("c", "d")], "", "t", None, None);
            TableRows(Fields(Definition([Key("", fk, false)]), '\n'), catalog, tableName).Err?
  {
    hide TableRows, Fields, Definition;
    var fk := ForeignKey("a\nb", [("c", "d")], "", "t", None, None);
    var lines := [Key("", fk, false)];
    assert fk.name[1] == '\n';
    assert !Reads(lines[0]);
    TableRoundTripIff(lines, catalog, tableName);
  }

  lemma CheckIsLine(name: string, condition: string)
    requires Absent('\n', name) && Absent('\n', condition)
    ensures Absent('\n', "  CONSTRAINT " + SqlQuoted(name) + " CHECK (" + condition + ")")
  {
    hide SqlQuoted;
    QuotedNewline(name);
    var head := "  CONSTRAINT ";
    assert Absent('\n', head) && Absent('\n', " CHECK (") && Absent('\n', ")");
    hide Absent;
    Three(head, SqlQuoted(name), " CHECK (");
    Three(head + SqlQuoted(name) + " CHECK (", condition, ")");
  }

  // ---------------------------------------------------------------- up to the sorted answer

  function Sum(rows: seq<Row>): nat {
    if rows == [] then 0 else Weight(rows[0]) + Sum(rows[1..])
  }

  lemma {:induction false} SumSplit(rows: seq<Row>, i: nat)
    requires i < |rows|
    ensures Sum(rows) == Weight(rows[i]) + Sum(rows[..i] + rows[i + 1..])
  {
    hide Weight;
    if i == 0 {
      assert rows[..0] + rows[1..] == rows[1..];
    } else {
      SumSplit(rows[1..], i - 1);
      var less := rows[..i] + rows[i + 1..];
      assert less[0] == rows[0] && less[1..] == rows[1..][..i - 1] + rows[1..][i..];
    }
  }

  lemma Removed(rows: seq<Row>, i: nat)
    requires i < |rows|
    ensures multiset(rows[..i] + rows[i + 1..]) == multiset(rows) - multiset{rows[i]}
  {
    assert rows == rows[..i] + [rows[i]] + rows[i + 1..];
  }

  lemma {:induction false} SumOfPermutation(a: seq<Row>, b: seq<Row>)
    requires multiset(a) == multiset(b)
    ensures Sum(a) == Sum(b)
    decreases |a|
  {
    hide Weight, Sum;
    if a == [] {
      assert |b| == |multiset(b)| == 0;
    } else {
      assert a[0] in multiset(b);
      var i :| 0 <= i < |b| && b[i] == a[0];
      SumSplit(a, 0);
      SumSplit(b, i);
      Removed(a, 0);
      Removed(b, i);
      SumOfPermutation(a[..0] + a[1..], b[..i] + b[i + 1..]);
    }
  }

  lemma {:induction false} SumOfHeavier(found: seq<Row>, right: seq<Row>)
    requires RightOrHeavierAll(found, right)
    ensures Sum(found) >= Sum(right)
    ensures Sum(found) == Sum(right) ==> found == right
  {
    hide Weight;
    if right != [] {
      assert RightOrHeavier(found[0], right[0]);
      forall i | 0 <= i < |right[1..]| ensures RightOrHeavier(found[1..][i], right[1..][i]) {
        assert found[1..][i] == found[i + 1] && right[1..][i] == right[i + 1];
      }
      SumOfHeavier(found[1..], right[1..]);
      assert found == [found[0]] + found[1..] && right == [right[0]] + right[1..];
    }
  }

  /** What `getImportedKeys` answers for a definition: a failure exactly if some line does not read; otherwise sorted
      rows, which are those of the foreign keys exactly if the other lines add none and no line confuses the action
      search. Wrong rules never cancel out. */
  lemma AnswerIff(lines: seq<TableLine>, catalog: string, tableName: string, r: Result<seq<Row>>)
    requires lines != [] && AllPrinted(lines) && Answers(r, Definition(lines), tableName, catalog)
    ensures r.Ok? <==> AllRead(lines)
    ensures r.Ok? ==> Sorted(r.value)
    ensures r.Ok? ==> (multiset(r.value) == multiset(KeysOf(lines, catalog, tableName))
                       <==> AllSilent(lines) && AllClear(lines))
  {
    hide TableRows, KeysOf, AllPrinted, AllRead, AllSilent, AllClear, Definition, Fields, Sorted, RightOrHeavierAll;
    LinesRead(lines, catalog, tableName);
    var right := KeysOf(lines, catalog, tableName);
    if r.Ok? && multiset(r.value) == multiset(right) {
      var found := TableRows(Fields(Definition(lines), '\n'), catalog, tableName).value;
      assert |found| == |multiset(found)| == |multiset(right)| == |right|;
      SumOfPermutation(found, right);
      SumOfHeavier(found, right);
    }
  }
}
