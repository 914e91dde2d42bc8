/** `MariaDbDatabaseMetaData::getImportedKeys`: foreign keys read back from the text of SHOW CREATE TABLE. */
module ImportedKeys {
  import opened Text
  import opened Quoting
  import opened Identifiers

  const KEY_CASCADE: nat := 0
  const KEY_RESTRICT: nat := 1
  const KEY_SET_NULL: nat := 2
  const KEY_NO_ACTION: nat := 3
  const KEY_SET_DEFAULT: nat := 4
  const KEY_NOT_DEFERRABLE: nat := 7

  const ON_UPDATE: string := "ON UPDATE "
  const ON_DELETE: string := "ON DELETE "

  datatype Action = Restrict | Cascade | SetNull | NoAction

  /** The order in which the source looks for the actions; a later hit overrides an earlier one. */
  const ACTIONS: seq<Action> := [Restrict, Cascade, SetNull, NoAction]

  function Rank(a: Action): nat {
    match a case Restrict => 0 case Cascade => 1 case SetNull => 2 case NoAction => 3
  }

  function ActionText(a: Action): string {
    match a
    case Restrict => "RESTRICT"
    case Cascade => "CASCADE"
    case SetNull => "SET NULL"
    case NoAction => "NO ACTION"
  }

  function Code(a: Action): nat {
    match a
    case Restrict => KEY_RESTRICT
    case Cascade => KEY_CASCADE
    case SetNull => KEY_SET_NULL
    case NoAction => KEY_NO_ACTION
  }

  /** `getImportedKeyAction`; `None` where it throws. */
  function GetImportedKeyAction(actionKey: string): Option<nat> {
    if actionKey == "" then Some(KEY_RESTRICT)
    else if actionKey == "NO ACTION" then Some(KEY_NO_ACTION)
    else if actionKey == "CASCADE" then Some(KEY_CASCADE)
    else if actionKey == "SET NULL" then Some(KEY_SET_NULL)
    else if actionKey == "SET DEFAULT" then Some(KEY_SET_DEFAULT)
    else if actionKey == "RESTRICT" then Some(KEY_RESTRICT)
    else None
  }

  lemma KnownAction(a: Action)
    ensures GetImportedKeyAction(ActionText(a)) == Some(Code(a))
  {
  }

  /** The codes of JDBC; no action at all counts as RESTRICT, and any other text is refused. */
  lemma ActionCodes(key: string)
    ensures GetImportedKeyAction(key) ==
            if key == "CASCADE" then Some(0)
            else if key == "RESTRICT" || key == "" then Some(1)
            else if key == "SET NULL" then Some(2)
            else if key == "NO ACTION" then Some(3)
            else if key == "SET DEFAULT" then Some(4)
            else None
  {
  }

  /** The columns of a result row that are not NULL. */
  datatype Row = Row(
    pkSchema: string, pkTable: string, pkColumn: string,
    fkSchema: string, fkTable: string, fkColumn: string,
    keySeq: string, updateRule: string, deleteRule: string, fkName: string, deferrability: string)

  // ---------------------------------------------------------------- one constraint line

  datatype Constraint = Constraint(name: string, fkColumns: seq<string>, table: Identifier, pkColumns: seq<string>)

  function Names(ids: seq<Identifier>): (r: seq<string>)
    ensures |r| == |ids|
  {
    seq(|ids|, i requires 0 <= i < |ids| => ids[i].name)
  }

  function Keyword(part: string, start: nat, keyword: string): Result<nat> {
    ReadKeyword(part, AfterSpaces(part, start), keyword, 0)
  }

  function ReadConstraint(part: string): (r: Result<Constraint>)
    ensures r.Ok? ==> |r.value.fkColumns| == |r.value.pkColumns|
  {
    var p1 :- Keyword(part, 0, "CONSTRAINT");
    var named :- ReadIdentifier(part, p1, "");
    var p2 :- Keyword(part, named.0, "FOREIGN KEY");
    var fks :- ReadList(part, p2);
    var p3 :- Keyword(part, fks.0, "REFERENCES");
    var table :- ReadIdentifier(part, p3, "");
    var pks :- ReadList(part, table.0);
    if |pks.1| != |fks.1| then Err(ParseError(0))
    else Ok(Constraint(named.1.name, Names(fks.1), table.1, Names(pks.1)))
  }

  method ParseConstraint(part: string) returns (r: Result<Constraint>)
    ensures r == ReadConstraint(part)
  {
    var p1 :- SkipKeyword(part, 0, "CONSTRAINT");
    var named :- ParseIdentifier(part, p1, Identifier("", ""));
    var p2 :- SkipKeyword(part, named.0, "FOREIGN KEY");
    var fks :- ParseIdentifierList(part, p2);
    var p3 :- SkipKeyword(part, fks.0, "REFERENCES");
    var table :- ParseIdentifier(part, p3, Identifier("", ""));
    var pks :- ParseIdentifierList(part, table.0);
    if |pks.1| != |fks.1| {
      return Err(ParseError(0));
    }
    return Ok(Constraint(named.1.name, Names(fks.1), table.1, Names(pks.1)));
  }

  /** Of the first `k` actions, the last one whose text occurs after `prefix` anywhere in the line. */
  ghost function ActionAmong(part: string, prefix: string, k: nat): Action
    requires k <= 4
  {
    if k == 0 then Restrict
    else if Contains(part, prefix + ActionText(ACTIONS[k - 1])) then ACTIONS[k - 1]
    else ActionAmong(part, prefix, k - 1)
  }

  ghost function ActionIn(part: string, prefix: string): Action {
    ActionAmong(part, prefix, 4)
  }

  lemma FindsContained(s: string, p: string)
    ensures Find(s, p, 0).Some? <==> Contains(s, p)
  {
  }

  method FindActions(part: string) returns (onUpdate: nat, onDelete: nat)
    ensures onUpdate == Code(ActionIn(part, ON_UPDATE))
    ensures onDelete == Code(ActionIn(part, ON_DELETE))
  {
    onUpdate, onDelete := KEY_RESTRICT, KEY_RESTRICT;
    for k := 0 to 4
      invariant onUpdate == Code(ActionAmong(part, ON_UPDATE, k))
      invariant onDelete == Code(ActionAmong(part, ON_DELETE, k))
    {
      var text := ActionText(ACTIONS[k]);
      var code := GetImportedKeyAction(text);
      KnownAction(ACTIONS[k]);
      FindsContained(part, ON_UPDATE + text);
      FindsContained(part, ON_DELETE + text);
      if Find(part, ON_UPDATE + text, 0).Some? {
        onUpdate := code.value;
      }
      if Find(part, ON_DELETE + text, 0).Some? {
        onDelete := code.value;
      }
    }
  }

  function KeyRow(c: Constraint, i: nat, onUpdate: nat, onDelete: nat, catalog: string, tableName: string): Row
    requires i < |c.pkColumns| == |c.fkColumns|
  {
    Row(if c.table.schema == "" then catalog else c.table.schema, c.table.name, c.pkColumns[i],
        catalog, tableName, c.fkColumns[i],
        Decimal(i + 1), Decimal(onUpdate), Decimal(onDelete), c.name, Decimal(KEY_NOT_DEFERRABLE))
  }

  function KeyRows(c: Constraint, onUpdate: nat, onDelete: nat, catalog: string, tableName: string): (rows: seq<Row>)
    requires |c.pkColumns| == |c.fkColumns|
    ensures |rows| == |c.pkColumns|
  {
    seq(|c.pkColumns|, i requires 0 <= i < |c.pkColumns| => KeyRow(c, i, onUpdate, onDelete, catalog, tableName))
  }

  predicate IsKeyLine(part: string) {
    "CONSTRAINT" <= part || Find(part, "FOREIGN KEY", 0).Some?
  }

  /** The rows of one line of the definition, already trimmed. */
  ghost function LineRows(part: string, catalog: string, tableName: string): Result<seq<Row>> {
    if !IsKeyLine(part) then Ok([])
    else
      var c :- ReadConstraint(part);
      Ok(KeyRows(c, Code(ActionIn(part, ON_UPDATE)), Code(ActionIn(part, ON_DELETE)), catalog, tableName))
  }

  /** The rows of all lines, in the order of the text. */
  ghost function TableRows(lines: seq<string>, catalog: string, tableName: string): Result<seq<Row>> {
    if lines == [] then Ok([])
    else
      var first :- LineRows(Trim(lines[0]), catalog, tableName);
      var rest :- TableRows(lines[1..], catalog, tableName);
      Ok(first + rest)
  }

  ghost function Before(rows: seq<Row>, r: Result<seq<Row>>): Result<seq<Row>> {
    match r
    case Err(e) => Err(e)
    case Ok(more) => Ok(rows + more)
  }

  method ImportedRows(tableDef: string, tableName: string, catalog: string) returns (r: Result<seq<Row>>)
    ensures r == TableRows(Fields(tableDef, '\n'), catalog, tableName)
  {
    var parts := Split(tableDef, '\n');
    var data: seq<Row> := [];
    assert parts[0..] == parts;
    BeforeNone(TableRows(parts, catalog, tableName));
    for k := 0 to |parts|
      invariant Before(data, TableRows(parts[k..], catalog, tableName)) == TableRows(parts, catalog, tableName)
    {
      var part := Trim(parts[k]);
      BeforeStep(data, parts[k..], catalog, tableName);
      assert parts[k..][1..] == parts[k + 1..];
      if IsKeyLine(part) {
        var c :- ParseConstraint(part);
        var onUpdate, onDelete := FindActions(part);
        var rows := AppendRows(data, c, onUpdate, onDelete, catalog, tableName);
        data := rows;
      } else {
        assert data + [] == data;
      }
    }
    assert data + [] == data;
    return Ok(data);
  }

  method AppendRows(data: seq<Row>, c: Constraint, onUpdate: nat, onDelete: nat, catalog: string, tableName: string)
    returns (r: seq<Row>)
    requires |c.pkColumns| == |c.fkColumns|
    ensures r == data + KeyRows(c, onUpdate, onDelete, catalog, tableName)
  {
    r := data;
    for i := 0 to |c.pkColumns|
      invariant r == data + KeyRows(c, onUpdate, onDelete, catalog, tableName)[..i]
    {
      r := r + [KeyRow(c, i, onUpdate, onDelete, catalog, tableName)];
    }
  }

  lemma BeforeNone(r: Result<seq<Row>>)
    ensures Before([], r) == r
  {
    if r.Ok? {
      assert [] + r.value == r.value;
    }
  }

  lemma BeforeStep(data: seq<Row>, lines: seq<string>, catalog: string, tableName: string)
    requires lines != []
    ensures var first := LineRows(Trim(lines[0]), catalog, tableName);
            Before(data, TableRows(lines, catalog, tableName))
            == if first.Err? then Err(first.error)
               else Before(data + first.value, TableRows(lines[1..], catalog, tableName))
  {
    var first := LineRows(Trim(lines[0]), catalog, tableName);
    var rest := TableRows(lines[1..], catalog, tableName);
    if first.Ok? && rest.Ok? {
      assert data + (first.value + rest.value) == data + first.value + rest.value;
    }
  }
}
