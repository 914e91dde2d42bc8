# Model of the delivery server's MariaDB connector and its store-detail codec

The server stores its data through a copy of MariaDB Connector/C++. This project models the parts of that connector in
which a mistake would be hard to see by reading one function, and the JSON codec of the server's store-detail response,
and proves what they do for all inputs, all runs and all interleavings. One module stands for one component:

- `Text`: string helpers (`replace`, `split`, `trim`, `substr`, decimal numbers). A `char` is one byte.
- `Quoting`, `Collapsing`, `Identifiers`, `ParseFailures`, `DecoderAgreement`: quoting of identifiers and its two
  decoders.
- `ImportedKeys`, `ConstraintText`, `ActionSearch`, `DefinitionLines`, `KeyOrder`, `TableRoundTrip`: the parser of
  foreign keys in `SHOW CREATE TABLE` text, and the order of the rows it returns.
- `MultiResults`, `ResultLaws`, `Results`: the queue of results of one command, fetched lazily or drained.
- `Statement`, `StatementThreads`, `StatementSolo`: execution, batches, close and cancel under a mutex, for one thread
  with all outcomes and for any number of threads step by step.
- `CArrays`: arrays whose sign of `length` says who owns the memory.
- `SessionState`, `SessionEffects`, `Connection`, `Savepoints`, `ClientInfo`: setters, dirty bits and reset, savepoint
  names, escaped literals.
- `QueryParts`, `PreparedBatch`, `Hosts`, `HostSpellings`: placeholders of a statement, batch rows, host lists of a URL.
- `StoreDetail`: encoding and decoding of the store-detail response.

Imperative code is modelled by methods and classes, each proved against a function of its inputs or of the old state;
the laws are lemmas about those functions. Exceptions are result values, server answers and threads' choices are
parameters. `dafny verify dfyconfig.toml` checks the project.

## Where the code differs from what it is meant to do

The model follows the code. Each difference has a lemma at a failing input and an exact condition.

- `replace` advances its search start by the length of the replacement from the previous start, not from the match
  (util/String.cpp:70-74), so `quoteIdentifier` does not double backticks in general
  (`QuoteIdentifierCounterexample`, `QuoteIdentifierIsSqlQuoted`), and `unquoteIdentifier` loses backticks of names that
  were quoted by the SQL rule (`DisagreeExample`, `UnquoteSqlQuotedIff`), though not of names the connector quoted.
- `SQLString::substr` drops everything from the first NUL on (SQLString.cpp:175-178): `UnquoteNulExample` with
  `UnquoteQuote`, `PartsCutExample` with `PartsConserveIff`.
- The actions of a foreign key are searched in the whole line, so an identifier that contains the text of an action can
  override the printed one: `ConfusedExample`, `LineRoundTripIff`.
- A line that starts with CONSTRAINT or mentions FOREIGN KEY is parsed as a foreign key, and one that is none makes the
  whole call fail, a named CHECK constraint for instance; so does a newline in a name: `CheckExample`,
  `NewlineExample`, `TableRoundTripIff`.
- A count that is -1 in 32 bits makes `getMoreResults` give up what is still on the wire: `HazardExample`,
  `HazardStays`, `DrainUnnoticedIff`.
- A command that starts with an update count is not registered with the connection, so a command of another statement
  does not drain it; one of the same statement skips it, and closing the statement does not: `UnregisteredExample`,
  `OtherStatementDrainsIff`, `SameStatementDrainsIff`, `ClosedStatement`.
- The lexer for placeholders closes a comment at a slash right after its opening, and takes two dashes or slashes for a
  comment wherever they stand: `BlockExample`, `BlockHoldsIff`, `DashExample`; what it reads as meant is stated by
  `StatementParts`.
- A batch of a prepared statement keeps its rows after it was executed: `SentAgain`, `RunSends`.
- `cancel` unlocks twice when a KILL fails after it took the mutex itself while `executing` was set. A prepared batch
  that succeeds, which returns before its epilogue, leaves it set: `MisuseExample`, `MisuseFollowsIff`.
- The direct write of `batchRes.length` orphans a block for size 0 (`LengthZeroLeaks`, `ReserveAndSetLength`); both
  callers return before that for an empty batch. The copy constructor copies bytes, not elements: `CopyExample`,
  `CopyFaithfulIff`.
- `reset` trusts the driver's own record of autocommit and database: `StaleRecordExample`, `ResetRestoresIff`,
  `RunThenResetIff`.
- Savepoint names ending in a digit can collide: `ClashExample`, `SameIdentifierIff`.
- An address with a type is printed in a form that `parse` cannot read, since its loop starts over at the first
  parenthesis each time (HostAddress.cpp:166-195), and a host with ":" is not read back, apart from hosts that
  bring their own bracket: `TypedExample`, `BracketExample`, `TokenIff`, `ListRoundTripIff`. `Hangs` is the outcome of a
  parse that does not end.
- The decoder of the store-detail response never reads the category: `CategoryExample`, `ResponseRoundTrip`.

## Model

| member | source | states |
|---|---|---|
| `Text.Replace` | server/mariadb-connector-cpp/src/util/String.cpp:64-76 | the in-place loop computes `ReplaceFrom`, whose search start advances by the length of the replacement and not to the end of the match |
| `Text.Split` | server/mariadb-connector-cpp/src/util/String.cpp:37-61 | the `find` loop yields exactly the fields between separators |
| `Text.FieldsOfJoin` | server/mariadb-connector-cpp/src/util/String.cpp:37-61 | splitting undoes joining for every non-empty list of parts free of the separator |
| `Text.TrimIndented` | server/mariadb-connector-cpp/src/SQLString.cpp:96-115 | trimming removes exactly the indent of a text whose ends are not white space |
| `Text.TrimBoth` | server/mariadb-connector-cpp/src/SQLString.cpp:96-115 | trimming takes white space off both ends and nothing else |
| `Text.WhiteSpace` | server/mariadb-connector-cpp/src/SQLString.cpp:96-115 | white space is exactly the six characters of `std::isspace` |
| `Text.ValueOfDecimal` | server/mariadb-connector-cpp/src/MariaDbSavepoint.cpp:54-58 | reading a printed number gives the number back, so decimal printing is injective |
| `Quoting.QuoteIdentifierSmears` | server/mariadb-connector-cpp/src/MariaDbConnection.cpp:85-87 | closed form of `quoteIdentifier` on every name: a run of r backticks after a plain stretch of length u becomes a run of u + 2r |
| `Quoting.UnquoteQuote` | server/mariadb-connector-cpp/src/MariaDbConnection.cpp:85-96 | `unquoteIdentifier(quoteIdentifier(s)) == s` if and only if s has no NUL byte, although quoting is not plain doubling |
| `Quoting.UnquoteOther` | server/mariadb-connector-cpp/src/MariaDbConnection.cpp:90-96 | text without both enclosing backticks comes back as it is |
| `Quoting.SmearedIsDoubled` | server/mariadb-connector-cpp/src/MariaDbConnection.cpp:85-87 | the text between the quotes is the doubled name if and only if all backticks of the name lead it |
| `Quoting.QuoteIdentifierIsSqlQuoted` | server/mariadb-connector-cpp/src/MariaDbConnection.cpp:85-87 | `quoteIdentifier` follows the SQL quoting rule exactly for the names whose backticks all lead |
| `Quoting.QuoteIdentifierCounterexample` | server/mariadb-connector-cpp/src/MariaDbConnection.cpp:85-87 | the name a-backtick is quoted with two backticks too many |
| `Collapsing.ReplaceCollapses` | server/mariadb-connector-cpp/src/MariaDbConnection.cpp:90-96 | closed form of the collapse of a doubled name: a run of r backticks comes out as r - lag / 2 of them but at least one, where lag is how far the search start is behind |
| `Collapsing.CollapsedIff` | server/mariadb-connector-cpp/src/MariaDbConnection.cpp:90-96 | the collapsed name is never longer, and is the name if and only if no two adjacent backticks have more than one other character before them |
| `Collapsing.UnquoteSqlQuotedIff` | server/mariadb-connector-cpp/src/MariaDbConnection.cpp:90-96 | `unquoteIdentifier` reads a name quoted by the SQL rule back if and only if it has no NUL and no two adjacent backticks with more than one other character before them |
| `Identifiers.SkipWhite` | server/mariadb-connector-cpp/src/MariaDbDatabaseMetaData.cpp:77-86 | the loop returns the first position that is not white space, or the length |
| `Identifiers.SkipKeyword` | server/mariadb-connector-cpp/src/MariaDbDatabaseMetaData.cpp:158-167 | the loop agrees with reading the keyword character by character, including a checked read past the end |
| `Identifiers.ReadKeywordIff` | server/mariadb-connector-cpp/src/MariaDbDatabaseMetaData.cpp:158-167 | a keyword is read, and the position after it returned, exactly where its text stands |
| `Identifiers.ReadRun` | server/mariadb-connector-cpp/src/MariaDbDatabaseMetaData.cpp:98-123 | the pairwise decoder settles a run of backticks by its parity: half of them are kept, an odd one closes |
| `Identifiers.ParseIdentifier` | server/mariadb-connector-cpp/src/MariaDbDatabaseMetaData.cpp:88-125 | the run-counting loop with its recursion on "." computes the same answer, position and failure as the pairwise decoder, on every text |
| `Identifiers.ReadIdentifierIff` | server/mariadb-connector-cpp/src/MariaDbDatabaseMetaData.cpp:88-125 | a success (end, schema, name) is returned if and only if the consumed text is white space, quoted names and dots of the grammar that decode to exactly that, and the next character ends the name |
| `Identifiers.ReadSqlQuoted` | server/mariadb-connector-cpp/src/MariaDbDatabaseMetaData.cpp:88-125 | every name quoted by the SQL rule is read back and the parser stops at the character after it |
| `Identifiers.ReadQuoteIdentifierIff` | server/mariadb-connector-cpp/src/MariaDbDatabaseMetaData.cpp:88-125 | a name quoted by the connector itself is read back if and only if its backticks all lead |
| `Identifiers.ParseIdentifierList` | server/mariadb-connector-cpp/src/MariaDbDatabaseMetaData.cpp:127-156 | the loop terminates on every text and computes `ReadList` |
| `Identifiers.ReadListIff` | server/mariadb-connector-cpp/src/MariaDbDatabaseMetaData.cpp:127-156 | a list is returned if and only if the consumed text is "(", the names in order with commas and white space anywhere, and ")", ending just past it |
| `ParseFailures.KeywordTooShort` | server/mariadb-connector-cpp/src/MariaDbDatabaseMetaData.cpp:158-167 | a keyword is a checked read past the end exactly where the text ends inside it |
| `ParseFailures.KeywordDiffers` | server/mariadb-connector-cpp/src/MariaDbDatabaseMetaData.cpp:158-167 | and a parse exception at a position exactly where the text first differs from it there |
| `ParseFailures.NoName` | server/mariadb-connector-cpp/src/MariaDbDatabaseMetaData.cpp:88-97 | a missing name is a read past the end, or an exception at the character that stands in its place |
| `ParseFailures.NotClosed` | server/mariadb-connector-cpp/src/MariaDbDatabaseMetaData.cpp:98-125 | a name that is not closed, or closed only by the last character, fails at the start of the whole |
| `ParseFailures.ThirdDot` | server/mariadb-connector-cpp/src/MariaDbDatabaseMetaData.cpp:113-121 | a third component fails at its dot |
| `ParseFailures.NoList` | server/mariadb-connector-cpp/src/MariaDbDatabaseMetaData.cpp:127-134 | a missing list is a read past the end, or an exception at the character that stands in its place |
| `ParseFailures.ListStops` | server/mariadb-connector-cpp/src/MariaDbDatabaseMetaData.cpp:135-156 | a list that stops is a read past the end, a stray character in it an exception at the start of the list |
| `DecoderAgreement.AgreeOnSqlQuotedIff` | server/mariadb-connector-cpp/src/MariaDbDatabaseMetaData.cpp:88-125 | on every name quoted by the SQL rule `unquoteIdentifier` and the parity decoder agree if and only if the name has no NUL and no backtick pair with more than one other character before it |
| `DecoderAgreement.DisagreeExample` | server/mariadb-connector-cpp/src/MariaDbConnection.cpp:90-96 | the name aa followed by two backticks loses one of them in `unquoteIdentifier`, and is read right by `parseIdentifier` |
| `DecoderAgreement.UnquoteQuoteIs` | server/mariadb-connector-cpp/src/MariaDbConnection.cpp:85-96 | unquoting what the connector quoted gives the name up to its first NUL, for every name |
| `DecoderAgreement.UnquoteNulExample` | server/mariadb-connector-cpp/src/SQLString.cpp:175-178 | of a name with a NUL in it only the part before comes back |
| `DecoderAgreement.AgreeOnOwnQuotingIff` | server/mariadb-connector-cpp/src/MariaDbDatabaseMetaData.cpp:88-125 | on every name quoted by the connector the two decoders agree if and only if the backticks of the name all lead or, in a name with a NUL, one other character and backticks at the end stand before it |
| `ImportedKeys.KnownAction` | server/mariadb-connector-cpp/src/MariaDbDatabaseMetaData.cpp:169-198 | each of the four action texts has its JDBC code |
| `ImportedKeys.ActionCodes` | server/mariadb-connector-cpp/src/MariaDbDatabaseMetaData.cpp:169-198 | the numeric code of every action text, and that any other text has none |
| `ImportedKeys.ParseConstraint` | server/mariadb-connector-cpp/src/MariaDbDatabaseMetaData.cpp:241-256 | the sequence of parser calls on one line computes `ReadConstraint`, unequal column lists being an error |
| `ImportedKeys.FindActions` | server/mariadb-connector-cpp/src/MariaDbDatabaseMetaData.cpp:258-267 | the search loop finds, for update and delete, the last action of the list whose text occurs anywhere in the line, RESTRICT if none does |
| `ImportedKeys.AppendRows` | server/mariadb-connector-cpp/src/MariaDbDatabaseMetaData.cpp:274-307 | the row loop appends one row for each column pair, numbered from 1 |
| `ImportedKeys.ImportedRows` | server/mariadb-connector-cpp/src/MariaDbDatabaseMetaData.cpp:231-308 | the line loop computes the rows of all constraint lines in order, or the first failure |
| `ConstraintText.LineParses` | server/mariadb-connector-cpp/src/MariaDbDatabaseMetaData.cpp:241-256 | every constraint line printed by the SQL rules parses to the name, column lists, schema and table it was printed from, and the parse ends before the actions |
| `ConstraintText.ClausesParse` | server/mariadb-connector-cpp/src/MariaDbDatabaseMetaData.cpp:241-256 | whatever follows them, the clauses of a constraint with any two column lists parse if and only if the lists are of the same length; otherwise the exception is at position 0 |
| `ConstraintText.EndStays` | server/mariadb-connector-cpp/src/MariaDbDatabaseMetaData.cpp:88-167 | a parse that succeeds does not look past its end: it gives the same on every longer text |
| `ConstraintText.CutLineFails` | server/mariadb-connector-cpp/src/MariaDbDatabaseMetaData.cpp:241-256 | a printed line that is cut off anywhere before its actions does not parse |
| `ConstraintText.CheckFails` | server/mariadb-connector-cpp/src/MariaDbDatabaseMetaData.cpp:234-243 | every named CHECK constraint passes the line filter and fails to parse |
| `ActionSearch.ContainsQuoted` | server/mariadb-connector-cpp/src/MariaDbDatabaseMetaData.cpp:258-267 | a pattern without backticks occurs in text around a quoted name exactly where it occurs in the name itself or beside it: no match crosses a backtick |
| `ActionSearch.ContainsLine` | server/mariadb-connector-cpp/src/MariaDbDatabaseMetaData.cpp:258-267 | an action text occurs in a printed line exactly when an identifier contains it or the tail prints it |
| `ActionSearch.UpdateRuleIff` | server/mariadb-connector-cpp/src/MariaDbDatabaseMetaData.cpp:258-267 | the update rule is read right if and only if no identifier contains an action text that the search prefers to the printed one |
| `ActionSearch.DeleteRuleIff` | server/mariadb-connector-cpp/src/MariaDbDatabaseMetaData.cpp:258-267 | the same for the delete rule |
| `ActionSearch.LineRoundTripIff` | server/mariadb-connector-cpp/src/MariaDbDatabaseMetaData.cpp:231-308 | a printed line is read back to exactly its rows, i-th columns paired at KEY_SEQ i with both rules, if and only if no identifier confuses the action search |
| `ActionSearch.ConfusedExample` | server/mariadb-connector-cpp/src/MariaDbDatabaseMetaData.cpp:258-267 | a key that references a table named ON UPDATE CASCADE and prints no action is read with the wrong rule |
| `TableRoundTrip.LineFits` | server/mariadb-connector-cpp/src/MariaDbDatabaseMetaData.cpp:231-308 | each line of a definition: a foreign key reads if and only if no name in it has a newline, a column or index line if and only if no name or definition in it holds the text FOREIGN KEY, any other line if and only if it is free of that text and of a leading CONSTRAINT, or parses; a foreign key gives one row for each column, right but for rules that the search prefers |
| `TableRoundTrip.NamedReads` | server/mariadb-connector-cpp/src/MariaDbDatabaseMetaData.cpp:234-236 | a printed column, PRIMARY KEY, KEY or UNIQUE KEY line gives no rows and no failure if and only if none of its names and no column definition holds the text FOREIGN KEY |
| `DefinitionLines.TakenForKeyIff` | server/mariadb-connector-cpp/src/MariaDbDatabaseMetaData.cpp:233-236 | which lines of text the filter lets through: those that after trimming start with CONSTRAINT, and those that hold FOREIGN KEY |
| `DefinitionLines.PassedOver` | server/mariadb-connector-cpp/src/MariaDbDatabaseMetaData.cpp:234-243 | an indented line that does not start with C gives no rows, and fails if and only if it holds FOREIGN KEY |
| `TableRoundTrip.OrdinaryExample` | server/mariadb-connector-cpp/src/MariaDbDatabaseMetaData.cpp:210-308 | an ordinary definition with two columns, a primary key, an index and one foreign key gives exactly the one row of that key, with its codes |
| `TableRoundTrip.TableRoundTripIff` | server/mariadb-connector-cpp/src/MariaDbDatabaseMetaData.cpp:210-308 | for every definition of foreign keys, columns, primary keys, indexes and other lines the parse fails if and only if some line does not read in that sense, and gives the rows of all foreign keys in order if and only if all lines read, the other lines add no rows and no line confuses the action search |
| `TableRoundTrip.CheckExample` | server/mariadb-connector-cpp/src/MariaDbDatabaseMetaData.cpp:234-243 | a named CHECK constraint anywhere in a definition makes the whole parse fail |
| `TableRoundTrip.NewlineExample` | server/mariadb-connector-cpp/src/MariaDbDatabaseMetaData.cpp:231-256 | so does a newline in the name of a key |
| `TableRoundTrip.AnswerIff` | server/mariadb-connector-cpp/src/MariaDbDatabaseMetaData.cpp:210-335 | what `getImportedKeys` answers for every such definition: a failure if and only if some line does not read; otherwise sorted rows, a permutation of those of the foreign keys if and only if the other lines add none and no line confuses the search |
| `KeyOrder.RowLessIsKeyLess` | server/mariadb-connector-cpp/src/MariaDbDatabaseMetaData.cpp:310-331 | the nested `strncmp` comparator decides as a three-stage order on (bytes up to NUL, size) keys, for all rows |
| `KeyOrder.RowLessIsStrictWeakOrder` | server/mariadb-connector-cpp/src/MariaDbDatabaseMetaData.cpp:310-331 | irreflexive, transitive, and ties are transitive, for all rows |
| `KeyOrder.DecimalOrder` | server/mariadb-connector-cpp/src/MariaDbDatabaseMetaData.cpp:323-326 | comparing decimal texts by length and then by bytes compares the numbers |
| `KeyOrder.RowLessIsDocumented` | server/mariadb-connector-cpp/src/MariaDbDatabaseMetaData.cpp:310-331 | on NUL-free names the comparator is the lexicographic order on (schema, table, numeric KEY_SEQ) |
| `KeyOrder.SortRows` | server/mariadb-connector-cpp/src/MariaDbDatabaseMetaData.cpp:310-331 | the rows come out ordered by the comparator and are a permutation of the input |
| `KeyOrder.GetImportedKeys` | server/mariadb-connector-cpp/src/MariaDbDatabaseMetaData.cpp:210-335 | the whole operation: the parse failure, or the rows of the text sorted |
| `Results.ResultQueue.AddStats` | server/mariadb-connector-cpp/src/Results.cpp:115-136 | new state of the results and of the connection, as `MultiResults.AddStats` |
| `Results.ResultQueue.AddStatsError` | server/mariadb-connector-cpp/src/Results.cpp:139-155 | new state after an error is noted |
| `Results.ResultQueue.AddResultSet` | server/mariadb-connector-cpp/src/Results.cpp:168-197 | new state after a result set arrives: queued, with a result-set entry in the statistics |
| `Results.ResultQueue.GetResult` | server/mariadb-connector-cpp/src/protocol/capi/QueryProtocol.cpp:1455-1500 | one packet is taken off the wire and noted; an error throws |
| `Results.ResultQueue.MoveToNextResult` | server/mariadb-connector-cpp/src/protocol/capi/QueryProtocol.cpp:1440-1453 | an error packet is noted before it is read |
| `Results.ResultQueue.CommandEnd` | server/mariadb-connector-cpp/src/Results.cpp:213-231 | the first queued result set becomes current unless the command starts with an update count |
| `Results.ResultQueue.ReleaseResultSet` | server/mariadb-connector-cpp/src/Results.cpp:234-243 | the current result set is handed out once and stays visible to `getResultSet` |
| `Results.ResultQueue.CheckOut` | server/mariadb-connector-cpp/src/Results.cpp:488-494 | a result set that was handed out is forgotten exactly if it is the one that leaves; nothing else changes |
| `Results.ResultQueue.LoadFully` | server/mariadb-connector-cpp/src/Results.cpp:258-297 | the drain loop computes `MultiResults.LoadFully` |
| `Results.ResultQueue.GetMoreResults` | server/mariadb-connector-cpp/src/Results.cpp:342-386 | computes `MultiResults.GetMoreResults`, with its exception |
| `ResultLaws.ExecuteStarts` | server/mariadb-connector-cpp/src/Results.cpp:115-231 | executing a command shows its first result and leaves the entries of the other packets to come, in order |
| `ResultLaws.FetchKeepsFuture` | server/mariadb-connector-cpp/src/Results.cpp:342-386 | fetching a packet leaves the sequence of entries to come unchanged |
| `ResultLaws.DrainKeepsFuture` | server/mariadb-connector-cpp/src/Results.cpp:258-297 | the drain loop empties the wire, clears the flags, keeps the entries to come, and throws exactly if the wire ends in an error |
| `ResultLaws.GetMoreResultsShows` | server/mariadb-connector-cpp/src/Results.cpp:342-386 | each call shows the head of what is to come and keeps the invariant, also after an error |
| `ResultLaws.LazyIsIdeal` | server/mariadb-connector-cpp/src/Results.cpp:342-386 | any number of lazy calls shows the entries to come one by one |
| `ResultLaws.DrainedIsIdeal` | server/mariadb-connector-cpp/src/Results.cpp:258-386 | after a drain any number of calls shows what was to come before it, with no assumption on counts or errors |
| `ResultLaws.DrainUnnoticedIff` | server/mariadb-connector-cpp/src/Results.cpp:258-386 | draining early changes no answer, count or current result set of any later calls if and only if no count before the last packet is -1 in 32 bits |
| `ResultLaws.HazardExample` | server/mariadb-connector-cpp/src/Results.cpp:342-386 | a count of 2^32 - 1 before a result set loses that result set in lazy mode |
| `ResultLaws.LazyWithError` | server/mariadb-connector-cpp/src/Results.cpp:342-386 | with an error at the end lazy fetching shows everything before it, raises it once, and goes on |
| `ResultLaws.RunStaysAligned` | server/mariadb-connector-cpp/src/Results.cpp:168-231 | in every run of calls the statistics after the cursor and the queue stay aligned |
| `ResultLaws.RunConserves` | server/mariadb-connector-cpp/src/Results.cpp:168-386 | in every run the result sets shown, followed by those still to come, are those that were to come: none lost, repeated or reordered |
| `ResultLaws.RunGiven` | server/mariadb-connector-cpp/src/Results.cpp:234-243 | after every run of calls the result set handed out last counts as handed out unless it was itself checked out since, whatever other result sets were |
| `ResultLaws.RunVisible` | server/mariadb-connector-cpp/src/Results.cpp:234-243 | after every run `getResultSet` answers the current result set or else the one handed out; checking out any other one leaves the answer as it was |
| `ResultLaws.RunRegistered` | server/mariadb-connector-cpp/src/protocol/capi/QueryProtocol.cpp:1748-1786 | after every run results that are registered as the active stream know of more on the wire |
| `ResultLaws.DiscardUnregisters` | server/mariadb-connector-cpp/src/Results.cpp:258-276 | after every run skipping leaves no registered stream and changes nothing that the application sees |
| `ResultLaws.CommandEndShows` | server/mariadb-connector-cpp/src/Results.cpp:213-231 | the first queued result set becomes current exactly if the statistics stand at a result set |
| `ResultLaws.HazardIs` | server/mariadb-connector-cpp/src/Results.cpp:342-386 | the counts that pass for -1 are those that leave 2^32 - 1 when divided by 2^32 |
| `ResultLaws.ErrorExample` | server/mariadb-connector-cpp/src/Results.cpp:139-155 | an error after one count is raised once and shown twice, as -3 |
| `Results.ResultQueue.Discard` | server/mariadb-connector-cpp/src/Results.cpp:258-276 | `loadFully(true)` skips what the results know to be on the wire, registered or not |
| `Results.ResultQueue.Destroy` | server/mariadb-connector-cpp/src/Results.cpp:101-106 | results that belong to a statement are discarded, those of a closed statement are not |
| `Results.ResultQueue.Close` | server/mariadb-connector-cpp/src/Results.cpp:456-459 | the results let go of their statement and nothing else changes |
| `ResultLaws.SameStatementDrainsIff` | server/mariadb-connector-cpp/src/MariaDbStatement.cpp:286-298 | for every executed command and every run of calls: a command on the same statement, which destroys the old results before it sends, starts on an empty wire if and only if no call fetched a count that is -1 in 32 bits with more behind it |
| `ResultLaws.SameStatementDrains` | server/mariadb-connector-cpp/src/Results.cpp:101-106 | so it always does if no count before the last packet is -1 in 32 bits |
| `ResultLaws.HazardStays` | server/mariadb-connector-cpp/src/Results.cpp:342-386 | after such a count even that command finds the rest of the old results |
| `ResultLaws.OtherStatementDrainsIff` | server/mariadb-connector-cpp/src/protocol/capi/QueryProtocol.cpp:1837-1870 | a command of another statement on the connection starts on an empty wire if and only if nothing was on it or these results know of it and are registered as the active ones; it leaves them unregistered |
| `ResultLaws.ClosedStatement` | server/mariadb-connector-cpp/src/MariaDbStatement.cpp:724-736 | closing a statement skips nothing; its destructor does, and until then another statement finds the rest of an unregistered stream |
| `ResultLaws.Registration` | server/mariadb-connector-cpp/src/protocol/capi/QueryProtocol.cpp:1748-1786 | a fetch registers the results exactly when it reads a result set with more behind it |
| `ResultLaws.UnregisteredExample` | server/mariadb-connector-cpp/src/protocol/capi/QueryProtocol.cpp:1502-1515 | a command that starts with an update count leaves later results in the way of another statement, not of its own |
| `Statement.MariaDbStatement.ExecuteQueryPrologue` | server/mariadb-connector-cpp/src/MariaDbStatement.cpp:144-153 | `executing` is set before the closed check, whatever follows |
| `Statement.MariaDbStatement.ExecuteExceptionEpilogue` | server/mariadb-connector-cpp/src/MariaDbStatement.cpp:183-209 | a lost connection closes the statement, and which exception is made of the error |
| `Statement.MariaDbStatement.ExecuteInternal` | server/mariadb-connector-cpp/src/MariaDbStatement.cpp:279-317 | for every outcome: flags down, mutex free and never misused, what was sent; closed exactly on an "08" error that is not an I/O error; thrown is what the I/O handler throws for an I/O error, the local-infile error for 1148, else the error itself, and never a time-out |
| `Statement.MariaDbStatement.ExecuteBatch` | server/mariadb-connector-cpp/src/MariaDbStatement.cpp:1296-1377 | the same for batches: past the closed check the list is sent at most once and is empty afterwards; an early return changes no flag |
| `Statement.MariaDbStatement.ExecutePreparedBatch` | server/mariadb-connector-cpp/src/ClientSidePreparedStatement.cpp:188-211 | a prepared batch that succeeds leaves `executing` set with the mutex free; a failing one does not |
| `Statement.MariaDbStatement.Close` | server/mariadb-connector-cpp/src/MariaDbStatement.cpp:724-750 | closed, and the mutex taken and given back once |
| `Statement.MariaDbStatement.CloseIfLost` | server/mariadb-connector-cpp/src/MariaDbStatement.cpp:183-243 | an "08" state makes the epilogue close the statement, with the mutex free at that point |
| `Statement.MariaDbStatement.AddBatch` | server/mariadb-connector-cpp/src/MariaDbStatement.cpp:1255-1263 | an empty statement is refused, any other is appended |
| `Statement.MariaDbStatement.Cancel` | server/mariadb-connector-cpp/src/MariaDbStatement.cpp:896-929 | the mutex ends as it was found; it is unlocked once too often exactly when it was free, the statement executing and the KILL fails |
| `StatementThreads.StepKeepsInv` | server/mariadb-connector-cpp/src/MariaDbStatement.cpp:144-317 | every step of every thread keeps the invariant and never reopens the statement |
| `StatementThreads.ClosedForGood` | server/mariadb-connector-cpp/src/MariaDbStatement.cpp:724-750 | in every interleaving closed stays true; nothing is sent after a close() has returned, unless the mutex was misused before, and never in runs without prepared batches |
| `StatementThreads.MutexDiscipline` | server/mariadb-connector-cpp/src/MariaDbStatement.cpp:279-317 | in every interleaving, until a misuse: locks and unlocks match, no thread requests a mutex it holds, and with the mutex free `executing` is set exactly if a prepared batch succeeded with no epilogue since; without prepared batches there is no misuse and the statement is at rest |
| `StatementThreads.LeavesAtRest` | server/mariadb-connector-cpp/src/MariaDbStatement.cpp:212-224 | a thread about to release the mutex after an execution has both flags down |
| `StatementThreads.CancelMisusesIff` | server/mariadb-connector-cpp/src/MariaDbStatement.cpp:896-929 | with the mutex free, a `cancel` whose KILL fails unlocks twice if and only if the statement is open and `executing` is set |
| `StatementThreads.MisuseFollowsIff` | server/mariadb-connector-cpp/src/MariaDbStatement.cpp:896-929 | after every run without misuse that is: if and only if the statement is open and the last execution to end was a prepared batch that succeeded |
| `StatementThreads.MisuseExample` | server/mariadb-connector-cpp/src/ClientSidePreparedStatement.cpp:188-211 | one prepared batch and then one `cancel` whose KILL fails unlock the mutex twice |
| `StatementSolo.SoloIsSteps` | server/mariadb-connector-cpp/src/MariaDbStatement.cpp:144-317 | the run of one thread alone is a run of the machine with all threads |
| `StatementSolo.SoloQuery` | server/mariadb-connector-cpp/src/MariaDbStatement.cpp:279-317 | a single query from call to return, for every outcome: nothing sent by a closed statement, flags down, mutex free, closed by a lost connection that is no I/O error |
| `StatementSolo.SoloBatch` | server/mariadb-connector-cpp/src/MariaDbStatement.cpp:1296-1377 | a batch from call to return, for every outcome: an early return changes nothing, otherwise it ends like a query, with an empty list; a prepared batch that succeeds skips the epilogue |
| `StatementSolo.BatchEnds` | server/mariadb-connector-cpp/src/MariaDbStatement.cpp:226-243 | after a batch that was not refused the list is empty and the flags are down, and a lost connection has closed the statement |
| `StatementSolo.SoloClose` | server/mariadb-connector-cpp/src/MariaDbStatement.cpp:724-750 | a close from call to return: closed, with one lock and one unlock |
| `StatementSolo.SoloCancel` | server/mariadb-connector-cpp/src/MariaDbStatement.cpp:896-929 | a cancel from call to return: what it leaves of the mutex, with the second unlock exactly where the KILL fails after it took the mutex itself |
| `StatementSolo.OtherEvents` | server/mariadb-connector-cpp/src/MariaDbStatement.cpp:1255-1263 | an empty statement is not added to a batch; a timer only sets its flag |
| `CArrays.Memory.Construct` | server/mariadb-connector-cpp/src/CArrayImp.h:37-51 | a negative length is refused; a positive one allocates a block of that size owned by the new array, and nothing else changes |
| `CArrays.Memory.ConstructOver` | server/mariadb-connector-cpp/src/CArrayImp.h:60-62 | borrowed memory is recorded with a negative length |
| `CArrays.Memory.Copy` | server/mariadb-connector-cpp/src/CArrayImp.h:98-107 | the copy of an owner gets a new block of the same length, any other shares the memory; all other arrays stay |
| `CArrays.Memory.Destroy` | server/mariadb-connector-cpp/src/CArrayImp.h:72-78 | exactly the owned block is freed |
| `CArrays.Memory.Wrap` | server/mariadb-connector-cpp/src/CArrayImp.h:151-168 | the owned block is freed, the new memory borrowed |
| `CArrays.Memory.Reserve` | server/mariadb-connector-cpp/src/CArrayImp.h:176-196 | a size of 0 or one already owned changes nothing; otherwise the array owns a new block of exactly that size, and a block too small is freed |
| `CArrays.Memory.Assign` | server/mariadb-connector-cpp/src/CArrayImp.h:122-149 | allocates only for an array without memory and then exactly the size, refuses a size above the capacity; all other arrays stay |
| `CArrays.Memory.ReserveAndSetLength` | server/mariadb-connector-cpp/src/MariaDbStatement.cpp:245-261 | the direct write of `length` keeps every block owned once if and only if the size is positive or the array owned nothing |
| `CArrays.NothingLeaks` | server/mariadb-connector-cpp/src/CArrayImp.h:72-78 | when the last array is gone no block is left and each was freed exactly once |
| `CArrays.LengthZeroLeaks` | server/mariadb-connector-cpp/src/MariaDbStatement.cpp:245-261 | writing length 0 on an owning array orphans its block |
| `CArrays.PlainAssignmentSharesOwnership` | server/mariadb-connector-cpp/src/CArrayImp.h:98-107 | the compiler-generated assignment would give an owned block two owners |
| `CArrays.CopyFaithfulIff` | server/mariadb-connector-cpp/src/CArrayImp.h:98-107 | the copy constructor copies `length` bytes of `length * width`: all bytes arrive, whatever the new block held, if and only if elements are one byte wide or there are none |
| `CArrays.CopyExample` | server/mariadb-connector-cpp/src/CArrayImp.h:98-107 | a copy of 1 and 2 in four bytes each, low byte first, over a block that held 7 and 7, is 1 and 7 |
| `SessionState.SetterSoundIff` | server/mariadb-connector-cpp/src/MariaDbConnection.cpp:702-972 | every setter with every outcome keeps "what differs from its default has its bit set" if and only if it is not a failing clear of read-only that was set |
| `SessionState.ResetRestoresIff` | server/mariadb-connector-cpp/src/MariaDbConnection.cpp:1753-1786 | a reset that completes zeroes `stateFlag`, and gives a fresh session if and only if no record of the driver equals a default that the server does not have |
| `SessionState.RestoreMarkedRestores` | server/mariadb-connector-cpp/src/MariaDbConnection.cpp:1762-1780 | the exact session that the restoring part leaves |
| `SessionState.ResetKeepsInv` | server/mariadb-connector-cpp/src/MariaDbConnection.cpp:1753-1786 | wherever a reset stops, bits and records stay sound |
| `SessionState.RunKeepsInv` | server/mariadb-connector-cpp/src/MariaDbConnection.cpp:702-1786 | every run of setters and resets in which any call may be refused keeps the invariant |
| `SessionState.RunThenReset` | server/mariadb-connector-cpp/src/MariaDbConnection.cpp:1753-1786 | after every such run a reset that completes gives back the fresh session, every attribute and record |
| `SessionState.RunSound` | server/mariadb-connector-cpp/src/MariaDbConnection.cpp:702-1786 | in every run with failures of every kind, also of calls that took effect, the bits are sound as long as no completed reset has missed something |
| `SessionState.RunThenResetIff` | server/mariadb-connector-cpp/src/MariaDbConnection.cpp:1753-1786 | after such a run a reset that completes gives a fresh session if and only if no record of the driver equals a default that the server does not have |
| `SessionState.StaleRecordExample` | server/mariadb-connector-cpp/src/protocol/capi/QueryProtocol.cpp:1275-1306 | a schema change reported as failed although it took effect survives a completed reset |
| `SessionEffects.CallEffect` | server/mariadb-connector-cpp/src/MariaDbConnection.cpp:702-1786 | one call in every session and for every outcome: each server attribute, each record of the driver and each bit is what the call asked for if it took effect there and as before otherwise, and the call reports success exactly then; the isolation levels accepted are 1, 2, 4 and 8 |
| `SessionEffects.RunEffects` | server/mariadb-connector-cpp/src/MariaDbConnection.cpp:702-1786 | after every run of setters and resets autocommit, read-only, isolation, database, both records and every bit hold what the latest call that set them asked for, or what was there at first |
| `Connection.MariaDbConnection.SetAutoCommit` | server/mariadb-connector-cpp/src/MariaDbConnection.cpp:702-715 | new session state for every outcome of the server call |
| `Connection.MariaDbConnection.SetReadOnly` | server/mariadb-connector-cpp/src/MariaDbConnection.cpp:828-848 | new session state for every outcome: the bit is set or cleared before the call, and the session is read-only as asked if the call took effect |
| `Connection.MariaDbConnection.SetTransactionIsolation` | server/mariadb-connector-cpp/src/MariaDbConnection.cpp:964-972 | the bit is set even for an unsupported level |
| `Connection.MariaDbConnection.SetSchema` | server/mariadb-connector-cpp/src/MariaDbConnection.cpp:1681-1692 | an empty name is refused before the bit is set |
| `Connection.MariaDbConnection.Reset` | server/mariadb-connector-cpp/src/MariaDbConnection.cpp:1753-1786 | new session state and completion for every outcome of the calls inside; from sound bits and records a reset that completes leaves the fresh session |
| `Connection.MariaDbConnection.RestoreMarked` | server/mariadb-connector-cpp/src/MariaDbConnection.cpp:1762-1780 | the try block of `reset`: the attributes restored in order, stopping at the first failure, the bits zeroed only at the end |
| `Connection.MariaDbConnection.SetSavepoint` | server/mariadb-connector-cpp/src/MariaDbConnection.cpp:1091-1100 | sends the name followed by the counter, and uses the number up even on failure |
| `Connection.MariaDbConnection.SetUnnamedSavepoint` | server/mariadb-connector-cpp/src/MariaDbConnection.cpp:1075-1077 | sends the name unnamed followed by the counter |
| `Savepoints.SameIdentifierIff` | server/mariadb-connector-cpp/src/MariaDbSavepoint.cpp:54-58 | two savepoints share an identifier if and only if the later number ends in the digits of the earlier and the earlier name carries the rest of them |
| `Savepoints.DistinctIff` | server/mariadb-connector-cpp/src/MariaDbConnection.cpp:1075-1100 | the identifiers of a run of any length are pairwise distinct if and only if no two of its calls clash in that way |
| `Savepoints.PlainNamesDistinct` | server/mariadb-connector-cpp/src/MariaDbConnection.cpp:1075-1100 | names not ending in a digit, the unnamed form included, always give distinct identifiers |
| `Savepoints.ClashExample` | server/mariadb-connector-cpp/src/MariaDbSavepoint.cpp:54-58 | "a1" as number 0 and "a" as number 10 are the same identifier |
| `ClientInfo.BuildClientQuery` | server/mariadb-connector-cpp/src/MariaDbConnection.cpp:1266-1307 | both escape loops compute the statement character by character |
| `ClientInfo.ReadEscaped` | server/mariadb-connector-cpp/src/MariaDbConnection.cpp:1266-1307 | in both modes a MariaDB string-literal reader yields the value and stops at the closing quote, whatever follows it |
| `ClientInfo.QueryRoundTrip` | server/mariadb-connector-cpp/src/MariaDbConnection.cpp:1266-1307 | reading the whole statement assigns exactly the value, NULL for the empty one |
| `ClientInfo.EscapeLength` | server/mariadb-connector-cpp/src/MariaDbConnection.cpp:1266-1307 | the escaped value is longer than the value by one character for each quote, and in backslash mode also for each backslash, double quote and NUL |
| `QueryParts.ParameterParts` | server/mariadb-connector-cpp/src/util/ClientPrepareResult.cpp:55-189 | the lexer loop yields the slices between placeholders, each cut at a NUL when there is a placeholder |
| `QueryParts.PartsConserveIff` | server/mariadb-connector-cpp/src/util/ClientPrepareResult.cpp:55-189 | the parts joined by question marks are the statement again if and only if it has no placeholder or no NUL |
| `QueryParts.LiteralStays` | server/mariadb-connector-cpp/src/util/ClientPrepareResult.cpp:112-145 | a literal escaped in the lexer's mode hides all its characters: no placeholder in it, and the lexer is outside quotes after it |
| `QueryParts.NameStays` | server/mariadb-connector-cpp/src/util/ClientPrepareResult.cpp:159-166 | so does every identifier quoted with doubled backticks |
| `QueryParts.DoubleQuotedStays` | server/mariadb-connector-cpp/src/util/ClientPrepareResult.cpp:112-134 | so does every literal in double quotes, in both escape modes |
| `QueryParts.BlockStays` | server/mariadb-connector-cpp/src/util/ClientPrepareResult.cpp:76-91 | so does every comment between slash-star and star-slash |
| `QueryParts.LineCommentStays` | server/mariadb-connector-cpp/src/util/ClientPrepareResult.cpp:82-110 | so does every comment that starts with two dashes, two slashes or a hash, up to the end of its line |
| `QueryParts.TrailingStays` | server/mariadb-connector-cpp/src/util/ClientPrepareResult.cpp:82-110 | a comment without the end of its line hides everything up to the end of the statement |
| `QueryParts.TidyCodeStays` | server/mariadb-connector-cpp/src/util/ClientPrepareResult.cpp:76-174 | code in which no quote, backtick, hash, question mark or comment opener stands is passed through |
| `QueryParts.PartsAreSegments` | server/mariadb-connector-cpp/src/util/ClientPrepareResult.cpp:55-189 | for every statement put together from literals and names in any quotes, comments of any form, placeholders and code that lexes to itself where it stands, the parameters found are exactly the placeholders and the parts the texts between them |
| `QueryParts.StatementParts` | server/mariadb-connector-cpp/src/util/ClientPrepareResult.cpp:55-189 | so for every statement made of such pieces whose code is described by its text alone, where no comment opener is formed at a seam, the parameters found are exactly the placeholders |
| `QueryParts.PlainCodeIsFine` | server/mariadb-connector-cpp/src/util/ClientPrepareResult.cpp:76-174 | text without quotes, comment characters and question marks is such code |
| `QueryParts.CommentIsFine` | server/mariadb-connector-cpp/src/util/ClientPrepareResult.cpp:92-110 | so is a comment to the end of its line, question marks included |
| `QueryParts.BlockExample` | server/mariadb-connector-cpp/src/util/ClientPrepareResult.cpp:77-90 | a slash right after the opening of a comment closes it, so that a question mark in the comment counts |
| `QueryParts.BlockHoldsIff` | server/mariadb-connector-cpp/src/util/ClientPrepareResult.cpp:77-90 | the lexer is inside a comment up to the end of its text if and only if the text does not start with a slash |
| `QueryParts.DashExample` | server/mariadb-connector-cpp/src/util/ClientPrepareResult.cpp:98-103 | two dashes between operands hide the question mark after them |
| `QueryParts.PartsCutExample` | server/mariadb-connector-cpp/src/SQLString.cpp:175-178 | a NUL before a placeholder cuts the part it is in |
| `Hosts.ToString` | server/mariadb-connector-cpp/src/HostAddress.cpp:200-226 | the loop prints the addresses separated by commas |
| `Hosts.StoIOfIntText` | server/mariadb-connector-cpp/src/HostAddress.cpp:150-158 | `stoi` reads back every printed int32, negative ones included |
| `Hosts.ParseList` | server/mariadb-connector-cpp/src/HostAddress.cpp:74-122 | the token loop and the type loop compute `Parse`, with the exceptions and the endless loop as outcomes; what `Parse` answers is stated by `HostSpellings` and `ListRoundTripIff` |
| `Hosts.AssignTypes` | server/mariadb-connector-cpp/src/HostAddress.cpp:109-120 | the index loop types the head master and the rest slave, leaving typed addresses alone |
| `Hosts.TypedUnread` | server/mariadb-connector-cpp/src/HostAddress.cpp:161-197 | the printed form of a typed address never comes back from the parser: it throws or does not end |
| `Hosts.TypedExample` | server/mariadb-connector-cpp/src/HostAddress.cpp:161-197 | for the master h with port 1 it does not end |
| `Hosts.BracketTokenIff` | server/mariadb-connector-cpp/src/HostAddress.cpp:129-135 | an address whose host has ":" is read back if and only if the host has no NUL and its first "]" is its last character, and the port is 3306 |
| `Hosts.BracketExample` | server/mariadb-connector-cpp/src/HostAddress.cpp:129-135 | a:] with port 3306 is read back, ::1 is not |
| `Hosts.TokenIff` | server/mariadb-connector-cpp/src/HostAddress.cpp:125-147 | every printed address is read back if and only if it is untyped and either has no ":" and does not start with "[" or "address=", or is one of those with ":" just named |
| `Hosts.ListRoundTripIff` | server/mariadb-connector-cpp/src/HostAddress.cpp:74-226 | for every list, in and out of replication mode, parsing undoes printing if and only if the list is not empty, every address is read back, no host has a comma, and no white space stands first in the text |
| `HostSpellings.WrittenRoundTripIff` | server/mariadb-connector-cpp/src/HostAddress.cpp:74-226 | for every list in which each address is written with its port or, if it is untyped with port 3306, bare: parsing gives the list back, typed in replication mode, if and only if the list is not empty, no host has a comma, each bare host is not empty, has no ":" and does not start with "[" or "address=", each other address is read back alone, and no white space is trimmed off the first host or off a last one that is bare |
| `HostSpellings.BareExample` | server/mariadb-connector-cpp/src/HostAddress.cpp:142-145 | db1 is read as db1 with port 3306, and a list of two as a master and a slave |
| `HostSpellings.BareTokenIff` | server/mariadb-connector-cpp/src/HostAddress.cpp:125-147 | the host alone is read back if and only if the address is untyped, its port 3306 and the host not empty, without ":" and without a leading "[" or "address=" |
| `HostSpellings.StoIReads` | server/mariadb-connector-cpp/src/HostAddress.cpp:150-158 | `stoi` passes over white space, takes a sign and reads up to the first character that is no digit |
| `HostSpellings.StoIRefuses` | server/mariadb-connector-cpp/src/HostAddress.cpp:150-158 | and refuses text that does not start with a number |
| `HostSpellings.SecondColon` | server/mariadb-connector-cpp/src/HostAddress.cpp:136-141 | what follows a second colon is ignored |
| `HostSpellings.NoNumber` | server/mariadb-connector-cpp/src/HostAddress.cpp:136-141 | without a number after its colon an address is refused |
| `HostSpellings.BracketPort` | server/mariadb-connector-cpp/src/HostAddress.cpp:129-135 | a bracketed host keeps its closing bracket, and a port after it is read |
| `HostSpellings.ParametersOutcome` | server/mariadb-connector-cpp/src/HostAddress.cpp:161-197 | an address given by parameters is refused for a bad port in the first of them and otherwise never left |
| `HostSpellings.NoParameters` | server/mariadb-connector-cpp/src/HostAddress.cpp:161-197 | without a parenthesis it is an empty host with port 3306 |
| `HostSpellings.NoPair` | server/mariadb-connector-cpp/src/HostAddress.cpp:161-197 | with an opening parenthesis only it is refused |
| `PreparedBatch.ClientSidePreparedStatement.constructor` | server/mariadb-connector-cpp/src/ClientSidePreparedStatement.cpp:64-80 | all parameters unset, no rows |
| `PreparedBatch.ClientSidePreparedStatement.SetParameter` | server/mariadb-connector-cpp/src/ClientSidePreparedStatement.cpp:324-334 | binds one slot, refuses an index out of range |
| `PreparedBatch.ClientSidePreparedStatement.ClearParameters` | server/mariadb-connector-cpp/src/ClientSidePreparedStatement.cpp:409-414 | all slots unset, rows untouched |
| `PreparedBatch.ClientSidePreparedStatement.AddBatch` | server/mariadb-connector-cpp/src/ClientSidePreparedStatement.cpp:162-179 | the copying loop appends the bound row, or fails and leaves the batch as it was |
| `PreparedBatch.ClientSidePreparedStatement.FirstUnset` | server/mariadb-connector-cpp/src/ClientSidePreparedStatement.cpp:103-112 | the check passes exactly when all are set and otherwise names the first unset position |
| `PreparedBatch.RunBinds` | server/mariadb-connector-cpp/src/ClientSidePreparedStatement.cpp:324-328 | after every run each slot holds what the latest call about it says |
| `PreparedBatch.Refusals` | server/mariadb-connector-cpp/src/ClientSidePreparedStatement.cpp:162-334 | a call is refused exactly for an index out of range, an unset parameter or an execution that stops, and then changes nothing |
| `PreparedBatch.RunRows` | server/mariadb-connector-cpp/src/ClientSidePreparedStatement.cpp:162-185 | after every run the batch is exactly, in order, the bindings at each `addBatch` that found all parameters bound and was not cleared since |
| `PreparedBatch.RunRowsFull` | server/mariadb-connector-cpp/src/ClientSidePreparedStatement.cpp:162-179 | at every moment each row has one set holder per parameter |
| `PreparedBatch.RowsStay` | server/mariadb-connector-cpp/src/ClientSidePreparedStatement.cpp:162-185 | later calls other than `clearBatch` leave existing rows as they are |
| `PreparedBatch.ClientSidePreparedStatement.ExecuteBatch` | server/mariadb-connector-cpp/src/ClientSidePreparedStatement.cpp:188-211 | the rows are sent, unless there are none or the execution stops before, and stay in the list |
| `PreparedBatch.RunSends` | server/mariadb-connector-cpp/src/ClientSidePreparedStatement.cpp:188-211 | in every run each execution sends all rows that count by then, those sent before included |
| `PreparedBatch.SentAgain` | server/mariadb-connector-cpp/src/ClientSidePreparedStatement.cpp:188-211 | so executing twice in a row sends the same rows twice |
| `StoreDetail.StoreReads` | dto/StoreDetailDTO.h:31-75 | every field of the store except the category comes back from any object that holds it under one of its two spellings |
| `StoreDetail.MenuReads` | dto/StoreDetailDTO.h:92-121 | every field of a menu comes back under any spelling |
| `StoreDetail.ReviewReads` | dto/StoreDetailDTO.h:143-176 | every field of a review comes back under any spelling |
| `StoreDetail.StoreDefaults` | dto/StoreDetailDTO.h:55-75 | what a store without any of its keys decodes to |
| `StoreDetail.MenuDefaults` | dto/StoreDetailDTO.h:108-121 | what a menu without any of its keys decodes to |
| `StoreDetail.ReviewDefaults` | dto/StoreDetailDTO.h:160-176 | what a review without any of its keys decodes to |
| `StoreDetail.ResponseDefaults` | dto/StoreDetailDTO.h:200-210 | a response without its keys keeps store, menus and reviews from before |
| `StoreDetail.NotAnObject` | dto/StoreDetailDTO.h:200-210 | a value that is no object is refused by every decoder, and so is a list that is no array |
| `StoreDetail.IllTypedSnake` | dto/StoreDetailDTO.h:55-75 | a store_id of the wrong type is an exception even where storeId is there to be used |
| `StoreDetail.StrictConversion` | dto/StoreDetailDTO.h:55-75 | which JSON values each conversion accepts: text and booleans only their own kind, reals numbers, integers numbers and booleans |
| `StoreDetail.IntConversion` | dto/StoreDetailDTO.h:55-75 | integers wrap to 32 bits, reals lose their fraction towards zero, booleans count as 1 and 0 |
| `StoreDetail.RenamedSpells` | dto/StoreDetailDTO.h:55-75 | renaming any subset of the keys is such a spelling |
| `StoreDetail.ResponseRoundTrip` | dto/StoreDetailDTO.h:190-210 | decoding the encoded response with any subset of renamable keys renamed in every object of it restores every field, for lists of any length, except the category, which keeps its value from before |
| `StoreDetail.EncodedRoundTrip` | dto/StoreDetailDTO.h:190-210 | the same for exactly what `to_json` builds |
| `StoreDetail.CategoryExample` | dto/StoreDetailDTO.h:55-75 | a category of food decodes to an empty one in a fresh structure |

## Left out

- Streaming results (a fetch size above 0), callable results, batches inside `Results`, generated keys, and
  `abort` of `Results`: the laws are about non-batch, non-streaming commands.
- The rows inside a result set: a result set is an identity. `checkOut` and caching are modelled only for the queue.
- Timers of statements, which are compiled out; `isTimedout` is set by a step of the environment.
- `markClosed`, `closeOnCompletion` and `testExecute` of `MariaDbStatement`, and the connection-wide effects of `close`
  other than the flag and the mutex.
- `getAutoIncrementIncrement`, which may send a query of its own while the mutex is held.
- `SortRows`: stands for `std::sort` by an insertion sort; rows that tie may come out in another order.
- `CArrays.Memory.Copy`: what the elements become is stated by `CopyFaithfulIff` alone; element contents are otherwise
  not part of the heap model. Allocation never fails.
- `SessionState.RunKeepsInv`: is about calls that are refused; calls that are reported as failed although they took
  effect are covered by `RunSound` and `RunThenResetIff`. A failing clear of read-only is left out of runs: it is a
  plain assignment in the protocol. `protocol->reset()` is taken to move attributes only to their defaults and to
  restore the isolation level.
- Integer overflow of the 32-bit savepoint counter, of the statistics cursor and of the quote counter, after 2^31 steps.
- `QueryParts.ParameterParts`: does not model the flag for rewriting several statements into one, and
  `rewritableParts` is not modelled.
- `Text.Split`: takes delimiters of one character, as all modelled callers pass.
- `Statement.MariaDbStatement.ExecuteInternal`: does not model which exception the handler of I/O errors throws, which
  depends on reconnecting.
- The single execution of a `ClientSidePreparedStatement`, its `clone`, and mutation of a parameter holder after it was
  bound.
- In `StoreDetail`, parsing and printing of JSON text, numbers that are not finite, and the fields already assigned when
  a conversion throws.
- `enquoteLiteral`, `enquoteIdentifier`, `MariaDbFunctionStatement`, `MariaDbProcedureStatement`, exception mapping,
  metadata queries, pools, logging, network, dispatcher, handlers and DAOs, and the other DTO headers: plumbing, tables,
  or flat codecs that would only add easy members.
