# A verified model of a small in-memory SQL engine

`project.py` implements a toy relational database behind a DB-API-like
interface.  A `Connection` tokenizes an SQL statement, parses it with a
hand-written recursive-descent parser over the token list, and runs it
against a shared `Database`: CREATE TABLE / VIEW, DROP TABLE, INSERT
(value lists or DEFAULT VALUES), UPDATE, DELETE, and SELECT with DISTINCT,
`min`/`max`, WHERE, ORDER BY (several keys, DESC, user collations) and one
LEFT OUTER JOIN.  Connections opened on the same file share one `Database`
and coordinate through a simplified form of SQLite's lock states (shared,
reserved, exclusive).  BEGIN opens a transaction that works on a private
deep copy of the database; COMMIT publishes it, ROLLBACK drops it.
`executemany` substitutes values for `?` placeholders and runs each
resulting statement.

The model follows the source's structure:

| module | file | models |
|---|---|---|
| `Wrappers` | wrappers.dfy | `Option`, `Result` (an exception is `Err(Raised)`) |
| `Values` | values.dfy | tokens and stored values (`None`, `int`, `float`, `str`), Python's `==`, `<` and truth test |
| `Columns` | columns.dfy | `QualifiedColumnName` and its asymmetric `__eq__` |
| `Locks` | locks.dfy | the lock bookkeeping of `Database`, as functions on a lock state |
| `Tokenizer` | tokenizer.dfy | `tokenize` and its helpers, and the escape loop of `remove_text` as written |
| `Tables` | tables.dfy | the `Table` class: WHERE test, row building, update, delete |
| `Sorting` | sorting.dfy | `sort_rows` (stable multi-key sort) |
| `Query` | query.dfy | `select_rows`, the LEFT OUTER JOIN of `Database.select`, DISTINCT, `min`/`max` |
| `Parser` | parser.dfy | `pop_and_check`, column names, WHERE, SET, value lists, column definitions, FROM, projection, ORDER BY |
| `Statements` | statements.dfy | the per-statement parsers of `Connection.execute` |
| `Storage` | database.dfy | the `Database` class (a Dafny class whose methods update its tables and lock fields) |
| `Substitution` | substitution.dfy | the placeholder substitution of `executemany` |
| `Engine` | engine.dfy | what one statement does to the shared database and the connection, as functions |
| `Transactions` | transactions.dfy | lemmas about statements, transactions and locks |
| `Connections` | connection.dfy | the `Connection` class, its methods proved equal to the `Engine` functions |

The imperative parts of the source are modelled imperatively and proved
against specification functions:
- `Database` and `Connection` are classes whose methods modify their fields.
- `tokenize`, `remove_duplicates`, `sort_rows`, the join loops, the update
  loop, the aggregate loops and `executemany` are loops with invariants.

Tokens and stored values are one type `Value`, because the source keeps a
word, a punctuation mark and a quoted text alike as a Python `str`: a
quoted `'WHERE'` is the keyword WHERE to the parser.

Errors are modelled as follows:
- A statement that raises is `Err(Raised)`.
- The state it leaves is the state after the steps that ran before the
  raise, as in the source.  For example, an UPDATE whose predicate raises
  on the third row leaves the first two rows updated.
- A lock that was taken stays taken.

## Model

| member | source | states |
|---|---|---|
| Values.StrLessIrreflexive | project.py:761-781 | no string is `<` itself |
| Values.StrLessTransitive | project.py:761-781 | string `<` (code-point order, prefix first) is transitive |
| Values.StrLessTrichotomy | project.py:761-781 | any two strings are `<` one way or equal |
| Values.LessIrreflexive | project.py:761-781 | the value order used by WHERE, ORDER BY and min/max is irreflexive |
| Values.LessTransitive | project.py:761-781 | the value order is transitive |
| Values.LessIncomparableIsEq | project.py:761-781 | two values are unordered by `<` both ways exactly when Python's `==` holds (so `=` and `!=` agree with `<`/`>`) |
| Values.LessNegativelyTransitive | project.py:803-818 | if x < z then every y has x < y or y < z (the order is a strict weak order, as `sorted` needs) |
| Values.LessAsymmetric | project.py:803-818 | x < y excludes y < x |
| Columns.Qualify | project.py:798-801 | an unqualified name takes the table in scope; a qualified one keeps its table; the column name is unchanged |
| Columns.QualifyAll | project.py:798-801 | `ensure_fully_qualified` qualifies each name in place, in order, length kept |
| Columns.PatchTable | project.py:253-271 | a falsy table part is replaced by the statement's table, any other is kept |
| Columns.ColEqReflexive | project.py:555-563 | every column name equals itself |
| Columns.UnqualifiedMatchesAnyTable | project.py:555-563 | an unqualified left operand equals any column of the same name, whatever its table |
| Columns.QualifiedNeverMatchesUnqualified | project.py:555-563 | a qualified name never equals a named but unqualified one |
| Columns.ColEqAsymmetric | project.py:555-563 | `__eq__` is not symmetric: `c == t.c` holds but `t.c == c` does not |
| Columns.QualifiedMemberIsExact | project.py:794-801 | a name found among a table's own (qualified) columns, once qualified with that table, is literally one of them, so the row lookup succeeds |
| Locks.AddReserved | project.py:584-592 | reserved is granted iff the caller already holds reserved or exclusive or nobody holds either; granting sets reserved only when free; shared and exclusive unchanged |
| Locks.AddShared | project.py:598-603 | shared is granted iff no other connection holds exclusive; the caller joins the shared set |
| Locks.AddExclusive | project.py:613-621 | exclusive is granted iff no other connection holds exclusive or reserved and no other connection holds shared; only the exclusive holder changes |
| Locks.AddReservedGrant | project.py:584-592 | in a consistent state, reserved is granted exactly when no other connection holds reserved or exclusive, and asking again changes nothing |
| Locks.ConsistentPreserved | project.py:584-621 | every lock operation keeps the invariant "while someone holds exclusive, nobody else holds shared or reserved" |
| Locks.ExclusiveExcludesOthers | project.py:598-621 | once a holds exclusive, another connection is refused exclusive, shared and reserved |
| Locks.SharedBlocksOtherExclusive | project.py:598-621 | while a holds shared, another connection is refused exclusive |
| Locks.OwnSharedUpgrades | project.py:598-621 | a connection's own shared lock does not block its upgrade to exclusive |
| Locks.CommitReleases | project.py:623-628 | `Database.commit` fails exactly when the writing transaction cannot upgrade to exclusive; otherwise the caller holds nothing afterwards and other holders keep their locks |
| Locks.RollbackReleases | project.py:482-491 | ROLLBACK's three releases leave the caller holding nothing and other holders unchanged |
| Locks.AutocommitWriteOutcome | project.py:147-155 | an autocommit write succeeds iff reserved and then exclusive are granted; on success no reserved or exclusive lock remains; if exclusive is refused after reserved was granted, reserved stays held |
| Locks.AutocommitWriteLeaksReserved | project.py:147-155 | a concrete case: with another reader holding shared, an autocommit write raises and leaves its reserved lock behind |
| Tokenizer.Span | project.py:859-865 | `collect_characters` takes the longest prefix of one character class |
| Tokenizer.RemoveWord | project.py:873-880 | a word consumes at least one character |
| Tokenizer.RemoveNumber | project.py:900-918 | a number consumes at least one character |
| Tokenizer.PyFindMissing | project.py:889-893 | `str.find` gives -1 when the character does not occur from the start position on |
| Tokenizer.ScanLoop | project.py:890-897 | the text left after the escape loop is never longer than the text it started from; the scan departs from the loop as written only at a true loop test at index -1, where it raises (see Left out) |
| Tokenizer.ScanLoopIsTextLoop | project.py:890-897 | each turn of the modelled scan is a turn of the loop as written: it raises where the loop test indexes out of range, returns `query[:i]` and `query[i+1:]` where the test is false, and otherwise continues from the state the source's turn leaves (escaped quote removed, search resumed after it) |
| Tokenizer.ScanText | project.py:883-897 | a text with no delimiter raises when empty and otherwise gives all but its last character, leaving the whole text to tokenize again; a delimiter first gives the empty text, or raises when it ends the input; the text left is never longer |
| Tokenizer.RemoveText | project.py:883-897 | a quoted literal consumes at least its opening quote |
| Tokenizer.RemoveTextUnclosed | project.py:883-897 | as written, a quote never closed gives the text without its last character and leaves the whole text to be tokenized again |
| Tokenizer.LexUnclosedText | project.py:883-956 | as written, `'x;` tokenizes to `x`, `x`, `;` without raising |
| Tokenizer.NextLexeme | project.py:921-956 | every turn of the tokenizer's loop shortens the input or raises |
| Tokenizer.Tokenize | project.py:921-956 | the loop returns exactly `Lex` of the statement |
| Tokenizer.LexSkipsWhitespace | project.py:868-870 | leading whitespace produces no token |
| Tokenizer.LexWord | project.py:873-880 | a word followed by a non-word character reads back as that word, or as None for `NULL` |
| Tokenizer.LexNull | project.py:873-880 | the word NULL becomes None |
| Tokenizer.ScanClosing | project.py:889-897 | a closing quote followed by a non-quote ends the scan with the text read so far |
| Tokenizer.EscapeSplit | project.py:890-892 | removing the first of a doubled quote turns the spelling of a text into the spelling of the rest after its first character |
| Tokenizer.ScanEscapedFrom | project.py:889-897 | from any point of a text spelled with doubled quotes, the scan reads the rest of the text and stops at the closing quote |
| Tokenizer.ScanEscaped | project.py:883-897 | a text with each delimiter doubled, then a closing delimiter, scans back to the original text |
| Tokenizer.LexQuoted | project.py:883-897 | a quoted text with doubled inner quotes reads back as one text token (round trip of quoting) |
| Tokenizer.NatDigits | project.py:900-903 | the decimal digits of a natural number are non-empty and all digits |
| Tokenizer.NatDigitsValue | project.py:900-903 | reading the digits of n gives n back |
| Tokenizer.LexNat | project.py:906-918 | the digits of n, followed by neither a digit nor `.`, read back as the integer n |
| Tokenizer.LexRejects | project.py:921-956 | a character no branch accepts (a `!` not followed by `=`, or any other unlisted character) makes tokenizing raise |
| Tokenizer.LexPunctuation | project.py:941-944 | each punctuation mark is its own one-character token |
| Tokenizer.PyFind | project.py:889-893 | `str.find` returns -1 or an index of the string |
| Tokenizer.TextLoopCycles | project.py:883-897 | as written, on `'''x` the escape loop goes from state ("''x", 0) to ("'x", -1) and back, the loop test true at both |
| Tokenizer.TextLoopPeriodic | project.py:889-893 | a loop whose step swaps two states alternates between them for ever |
| Tokenizer.TextLoopNeverExits | project.py:883-897 | as written, after any number of turns the escape loop's test still holds on `'''x`: the loop never ends |
| Tokenizer.ScanTextRejectsUnclosed | project.py:883-897 | the modelled scan raises on `'''x`, where the loop as written cycles, so tokenizing it raises |
| Tokenizer.TextLoopWrapsAround | project.py:883-897 | as written, on `'''x;` the escape loop goes from ("''x;", 0) to ("'x;", -1), where the test is true, then splices the text into ("'x'x;", 0), where the test is false: the source reads the empty text and leaves `x'x;`, while the modelled scan raises |
| Tokenizer.ScanLoopRun | project.py:890-893 | after any number of escape turns of the loop as written (a true test at a found quote), the modelled scan is still in range and gives what it gives from the state the loop has reached |
| Tokenizer.ScanLoopEnds | project.py:890-893 | from every state the loop as written leaves its escape turns within as many turns as the text is long |
| Tokenizer.ScanLoopFollowsLoop | project.py:890-897 | from any state, once the escape turns are done: a false test gives the source's slices, an out-of-range test raises as the source does, and a true test at index -1 raises |
| Tokenizer.ScanTextFollowsLoop | project.py:888-897 | the same for the scan of a whole text, started where the first `find` leaves it |
| Tokenizer.ScanTextOutcome | project.py:888-897 | for every text, the loop as written reaches a test that is not an escape within as many turns as the text is long, and there the modelled scan gives the source's slices, raises where the source raises, or raises where the source's test is true at index -1 |
| Tables.ColumnNames | project.py:721-726 | the declared column names, in order |
| Tables.NewTable | project.py:721-726 | a new table has no rows and the given name, columns and defaults; an empty column list raises |
| Tables.RowMatchWhere | project.py:761-781 | no clause matches every row; a missing column raises; IS / IS NOT test for None; any other operator never matches None and otherwise compares with `<`, `>`, `==`, `!=` |
| Tables.KeepRows | project.py:754-756 | the filter raises iff some row's test raises; every row kept has the wanted test result |
| Tables.KeepRowsMultiset | project.py:754-756 | each row is kept as often as it occurs when it passes the test, and never otherwise |
| Tables.KeepRowsAppend | project.py:754-756 | filtering keeps row order: filtering a concatenation concatenates the filtered parts |
| Tables.DeleteLeavesNoMatch | project.py:754-756 | after DELETE no remaining row matches the predicate |
| Tables.DeletePartitions | project.py:754-756 | the kept rows and the deleted rows together are the original rows (as multisets) |
| Tables.ApplyClausesKeys | project.py:748-752 | the updated row has the old columns plus the assigned ones |
| Tables.ApplyClausesLastWins | project.py:748-752 | a column assigned several times gets its last assignment |
| Tables.ApplyClausesUntouched | project.py:748-752 | a column no clause assigns keeps its value |
| Tables.UpdateRow | project.py:748-752 | a row is rewritten iff it matches; a raising test raises |
| Tables.FirstFailure | project.py:748-752 | the index of the first row whose test raises, or the number of rows |
| Tables.UpdateRows | project.py:748-752 | the row count is kept; the loop completes iff no test raises; rows before the first raise are updated, the rest unchanged |
| Tables.ColSet | project.py:728-738 | the set of named columns |
| Tables.ZipMapKeys | project.py:728-738 | `dict(zip(cols, contents))` has exactly the named columns as keys |
| Tables.ZipMapLastWins | project.py:728-738 | a column named twice gets its last value |
| Tables.TargetColumns | project.py:728-738 | without a column list, the values go to all declared columns in order |
| Tables.BuildRow | project.py:728-738 | a row is built iff there are as many values as target columns; it has the target and declared columns; each target gets its (last) value; every other declared column gets its default or None |
| Tables.Fill | project.py:732-737 | the missing columns, each with its default or None |
| Tables.NewRow | project.py:728-738 | `insert_new_row`'s loop builds exactly `BuildRow` |
| Tables.FillMissing | project.py:732-737 | the loop adds exactly the defaults of the missing columns |
| Tables.DefaultRow | project.py:740-746 | DEFAULT VALUES succeeds iff every column has a default, and the row holds exactly those defaults |
| Tables.NewDefaultRow | project.py:740-746 | `insert_new_default_row`'s loop builds exactly `DefaultRow` |
| Tables.LastOccurrence | project.py:728-738 | every named column has a last occurrence (the one whose value wins) |
| Sorting.ValueKeyIsWeakOrder | project.py:803-818 | sorting by value (no collation) is by a strict weak order |
| Sorting.Insert | project.py:803-818 | stable insertion adds exactly one row |
| Sorting.StableSort | project.py:803-818 | one `sorted` pass is a permutation of its rows |
| Sorting.SortByKey | project.py:803-818 | one pass raises iff a row lacks the key column (a value sort reads every row's key, a collation sort only compares when there are two rows); otherwise it permutes the rows |
| Sorting.SortSpec | project.py:803-818 | the multi-key sort raises or permutes the rows |
| Sorting.SortRows | project.py:803-818 | the loop over the reversed keys computes `SortSpec` |
| Sorting.SortSpecErrFromSuffix | project.py:803-818 | a pass that raises makes the whole sort raise |
| Sorting.SortedCons | project.py:803-818 | a row not after the head of a sorted sequence can be put in front |
| Sorting.BeforeFirstBeforeAll | project.py:803-818 | a row before the first of a sorted sequence is before all of it |
| Sorting.InsertSorted | project.py:803-818 | stable insertion keeps a sequence sorted by the key, ties broken by the later keys |
| Sorting.StableSortSorted | project.py:803-818 | a stable pass over rows sorted by the later keys yields rows sorted by this key, then the later keys |
| Sorting.ShortIsSorted | project.py:803-818 | zero or one row is sorted |
| Sorting.SortSpecSorted | project.py:803-818 | ORDER BY k1, ..., kn: the result is a permutation sorted lexicographically by the keys, ties keeping the input order |
| Query.Pad | project.py:703-711 | the padded row has the left columns plus every right column set to None |
| Query.MatchRows | project.py:688-711 | the combined rows are exactly left+right for the right rows whose key equals the left key and is not None; a right row lacking the key raises |
| Query.JoinRow | project.py:688-711 | a left row lacking the key raises; one with a None key yields the padded row alone; every left row contributes at least one row |
| Query.JoinSpec | project.py:688-711 | the join has at least one row per left row; an empty right table with a non-empty left one raises |
| Query.JoinSpecUnfold | project.py:688-711 | the join is the first left row's rows followed by the join of the rest |
| Query.JoinLeftRow | project.py:688-711 | the inner loop computes `JoinRow` |
| Query.Join | project.py:688-711 | the nested loops compute `JoinSpec` |
| Query.JoinSpecAppend | project.py:688-711 | the join keeps left-row order: joining a concatenation concatenates the joins |
| Query.JoinRowMatches | project.py:688-711 | LEFT OUTER JOIN semantics: a left row with a non-null key yields exactly its matches, or one padded row when it has none; when it has some, its rows are those of `MatchRows`, one per matching right row in right-table order |
| Query.MatchRowsAppend | project.py:692-702 | matching against the right rows `a + b` succeeds iff it does against both, and gives the matches of `a` followed by those of `b` (right-table order) |
| Query.MatchRowsOne | project.py:692-702 | one right row raises if it lacks the key column, and otherwise gives left+right when the keys are equal and not None, nothing else |
| Query.MatchRowsTwice | project.py:692-702 | a matching right row present twice gives its combined row twice (duplicates are kept) |
| Query.ExpandStar | project.py:785-792 | `*` becomes all declared columns; other names are kept; without `*` nothing changes |
| Query.Tuple | project.py:820-822 | a tuple holds the row's values at the output columns, in order |
| Query.Project | project.py:820-822 | projection succeeds iff every row has every output column, giving one tuple per row in order |
| Query.TupleEqIsEquivalence | project.py:824-832 | tuple equality (Python `==`, numbers across int and float) is an equivalence |
| Query.Dedup | project.py:824-832 | de-duplication never lengthens the result |
| Query.DedupDistinctCovers | project.py:824-832 | the de-duplicated tuples are pairwise unequal and every input tuple has an equal among them |
| Query.FirstOccurrencePrefix | project.py:824-832 | being a first occurrence does not depend on what follows |
| Query.AppendedIsFirst | project.py:824-832 | a tuple the walk keeps equals none before it |
| Query.DedupFirsts | project.py:824-832 | the kept tuples are first occurrences, in input order |
| Query.RemoveDuplicates | project.py:824-832 | the loop with its `seen` set computes `Dedup` |
| Query.OrderCols | project.py:836-841 | the ORDER BY columns, in order |
| Query.QualifyKeys | project.py:836-841 | each ORDER BY key with its column qualified |
| Query.SelectOrdered | project.py:834-851 | without DISTINCT, SELECT returns the matching rows (each once per occurrence), sorted by the ORDER BY keys, projected onto the output columns |
| Query.SelectDistinct | project.py:824-851 | with DISTINCT, SELECT returns the plain result with later duplicates dropped, pairwise unequal and covering it |
| Query.SelectAfterDelete | project.py:754-851 | a SELECT with the predicate of a DELETE just run returns nothing |
| Query.JoinTable | project.py:688-716 | the joined table has the left then the right columns and the join's rows |
| Query.DbSelect | project.py:674-716 | a plain FROM selects from the named table, which must exist |
| Query.BetterOrder | project.py:446-466 | the "beats" relation of min/max is asymmetric, transitive and negatively transitive |
| Query.ExtremeIsFirstBest | project.py:446-466 | the running min/max is a value of the column that nothing beats, and it is the first such value |
| Query.Column | project.py:446-466 | the i-th value of every tuple |
| Query.AggregateSpec | project.py:446-466 | without min/max the result is unchanged; with one it succeeds iff there is a tuple and every tuple is long enough |
| Query.AggregateIsExtreme | project.py:446-466 | an aggregate is a single tuple whose i-th value occurs in column i and is not beaten by any value there (minimum for `min`, maximum otherwise) |
| Query.ExtremeSnoc | project.py:446-466 | one more tuple extends the running extreme by one comparison |
| Query.ColumnExtreme | project.py:449-462 | the loop over one column computes `Extreme`, and raises iff the result is empty or a tuple is short |
| Query.AggregateRows | project.py:446-466 | the aggregation loop computes `AggregateSpec` |
| Parser.Pop | project.py:854-856 | popping succeeds iff there is a token, and splits off the first one |
| Parser.Expect | project.py:854-856 | `pop_and_check` succeeds iff the first token is the expected word, which it removes |
| Parser.FirstIs | project.py:854-856 | reading `tokens[0]` raises on an empty list, and otherwise tests it |
| Parser.ParseColumn | project.py:188-199 | `name` alone is unqualified; `t . name` is qualified by t; at least one token is consumed |
| Parser.ParseColumnRoundTrip | project.py:188-199 | writing a column name out and parsing it gives it back |
| Parser.OpOf | project.py:261-263 | exactly `>`, `<`, `=`, `!=` and `IS` are operators |
| Parser.ParseOperator | project.py:261-266 | an operator, optionally followed by NOT |
| Parser.ParseOperatorRoundTrip | project.py:261-266 | writing an operator out and parsing it gives it back |
| Parser.ParseWhere | project.py:253-271 | no WHERE gives no clause and consumes nothing; a clause is well formed (IS / IS NOT exactly with NULL) and its column gets the statement's table |
| Parser.ParseWhereRoundTrip | project.py:253-271 | writing a WHERE clause out and parsing it gives it back |
| Parser.ParseSetClauses | project.py:213-227 | the SET loop stops at the end or at WHERE, and qualifies its columns |
| Parser.ParseSetClause | project.py:215-220 | one SET clause consumes at least its column, "=" and constant, and its column is qualified whenever the statement names its table |
| Parser.ParseSetClauseRoundTrip | project.py:215-220 | a qualified clause written out as `col = constant` reads back as itself, leaving what follows untouched |
| Parser.ParseSetClausesLast | project.py:213-227 | one clause followed by the end or WHERE parses back |
| Parser.ParseSetClausesComma | project.py:213-227 | a clause, a comma and parsed clauses parse back as one list |
| Parser.ParseSetClausesRoundTrip | project.py:213-227 | writing SET clauses out (comma separated) and parsing them gives them back |
| Parser.SetClausesNeedNoComma | project.py:213-227 | as written, `a = x b = y` is accepted as two clauses without a comma |
| Parser.ParseItems | project.py:136-145 | a comma-separated list has at least one item |
| Parser.ParseParenList | project.py:136-145 | a parenthesised list has at least one item and consumes its tokens |
| Parser.ParseParenListRoundTrip | project.py:136-145 | writing a value list out and parsing it gives it back |
| Parser.ParseItemsRoundTrip | project.py:136-145 | writing the items out and parsing them gives them back |
| Parser.Names | project.py:105-120 | the names of the column definitions, in order |
| Parser.TypeOf | project.py:112-113 | exactly TEXT, INTEGER and REAL are column types |
| Parser.ParseColumnDefs | project.py:105-121 | at least one column; each qualified by the table; defaults only for declared columns |
| Parser.ParseFromJoin | project.py:278-293 | a table name not followed by LEFT is a plain FROM |
| Parser.ParseProjection | project.py:305-322 | at least one output column, each with its aggregate marker |
| Parser.ParseOutput | project.py:308-317 | one output column consumes at least one token |
| Parser.ParseOutputRoundTrip | project.py:308-317 | a column, or `min(col)` / `max(col)`, written out reads back with its marker, whatever (other than ".") follows |
| Parser.ParseOrderBy | project.py:413-431 | at least one key; a collation is one registered under some name |
| Parser.ParseCollate | project.py:418-421 | without COLLATE nothing is consumed and no collation is chosen; after COLLATE the next token must name a registered collation, which is the one returned, or the statement raises |
| Parser.OrderBySingle | project.py:413-431 | one key, with or without DESC, parses to that key with no collation |
| Parser.OrderByUnknownCollation | project.py:413-431 | a collation name never registered raises |
| Parser.ParseColumnDefsRoundTrip | project.py:105-121 | column definitions written out (name, type, optional DEFAULT, comma separated, `)` closing) parse back to their columns qualified by the table, in order, and their defaults, the later default winning |
| Parser.ParseFromJoinRoundTrip | project.py:278-293 | a FROM clause written out parses back: a table followed by anything but LEFT, or `l LEFT OUTER JOIN r ON c = c` |
| Parser.ParseProjectionRoundTrip | project.py:305-322 | output columns written out (plain or `max(...)`/`min(...)`, comma separated, then FROM) parse back with their aggregate markers |
| Parser.ParseOrderByRoundTrip | project.py:413-431 | ORDER BY keys written out (each with optional COLLATE name and DESC, comma separated) parse back to their columns, directions and registered collations |
| Statements.ParseCreateTable | project.py:93-123 | CREATE TABLE has at least one column, each qualified by the table, defaults only for declared columns, and IF NOT EXISTS exactly when IF follows TABLE |
| Statements.ParseCreateView | project.py:125-130 | CREATE VIEW name AS q records the query tokens q under the name |
| Statements.QualifyNames | project.py:166-169 | a column list is qualified by the table |
| Statements.ParseInsertTarget | project.py:156-171 | the value lists are a proper suffix of the statement |
| Statements.ParseUpdate | project.py:201-233 | UPDATE t SET ...: the table is the first token; clauses and WHERE get a qualified column |
| Statements.ParseDelete | project.py:235-251 | DELETE FROM t: the table is the token after FROM; without more tokens there is no WHERE |
| Statements.ParseDrop | project.py:468-480 | DROP TABLE t and DROP TABLE IF EXISTS t |
| Statements.ParseSelect | project.py:273-431 | SELECT has at least one output column, an aggregate marker per column, at least one ORDER BY key, and DISTINCT exactly when the first token is DISTINCT |
| Statements.ParseWhereTokens | project.py:253-271 | an optional WHERE clause written out parses back |
| Statements.ParseUpdateRoundTrip | project.py:201-233 | an UPDATE written out parses back to itself |
| Statements.ParseDeleteRoundTrip | project.py:235-251 | a DELETE written out parses back to itself |
| Statements.ParseCreateTableRoundTrip | project.py:93-123 | CREATE TABLE [IF NOT EXISTS] t (...) written out parses back to t, IF NOT EXISTS, the columns qualified by t and the defaults |
| Statements.CreateTableBody | project.py:105-121 | the part from the table's name on reads the name, `(` and the column definitions |
| Statements.ParseInsertValuesRoundTrip | project.py:156-171 | INSERT INTO t [(c, ...)] VALUES written out reads back t, the named columns qualified by t (none without a list) and the value lists' tokens |
| Statements.ParseInsertDefaultRoundTrip | project.py:156-164 | INSERT INTO t DEFAULT VALUES reads back t |
| Statements.ParseSelectTail | project.py:278-431 | after the projection, FROM, WHERE (with the left table in scope) and ORDER BY parse back in turn |
| Statements.ParseSelectRoundTrip | project.py:273-431 | a SELECT written out (DISTINCT, output columns, FROM, WHERE, ORDER BY) parses back to itself, with the registered collations |
| Storage.CreateTableSpec | project.py:630-639 | an existing name is accepted (unchanged) iff IF NOT EXISTS; a new name needs a column; the new table is empty with the given defaults; only that name is added |
| Storage.InsertSpec | project.py:644-648 | an insert succeeds iff the table exists and the row can be built |
| Storage.InsertDefaultSpec | project.py:650-654 | DEFAULT VALUES succeeds iff the table exists and every column has a default |
| Storage.UpdateSpec | project.py:656-659 | an update of a missing table raises and changes nothing; no table is added or removed |
| Storage.DeleteSpec | project.py:661-664 | a delete succeeds iff the table exists and no test raises |
| Storage.DropSpec | project.py:666-672 | a drop succeeds iff the table exists or IF EXISTS; afterwards the name is gone and nothing else |
| Storage.CreateThenDrop | project.py:630-672 | dropping a table just created gives the database back |
| Storage.CreateAndDropIdempotent | project.py:630-672 | CREATE TABLE IF NOT EXISTS and DROP TABLE IF EXISTS can be repeated without effect |
| Storage.InsertAppendsOneRow | project.py:644-648 | an insert appends exactly the built row to the named table and changes nothing else |
| Storage.InsertAll | project.py:166-186 | inserting value lists in turn keeps the table names, and completes iff every list fits the named table (which must exist) |
| Storage.BuildRowSameShape | project.py:728-738 | the row built from a list depends only on the table's columns and defaults |
| Storage.BuiltRows | project.py:166-186 | the rows built from the lists, one per list, in order |
| Storage.InsertAllAppends | project.py:166-186 | when every list fits, inserting them all appends their built rows in order to the named table and changes nothing else |
| Storage.InsertAllFrom | project.py:166-186 | the same, for any table of the same columns and defaults |
| Storage.InsertAllStep | project.py:166-186 | the first list goes in as a single insert would put it |
| Storage.InsertAllJoin | project.py:166-186 | appending the first row, then the rest, appends them all |
| Storage.UpdateKeepsShape | project.py:656-659 | an update keeps the other tables, the columns and the row count; when complete every row is its one-row update; when a test raises, the rows from there on are unchanged |
| Storage.DeleteKeepsNonMatching | project.py:661-664 | a delete keeps exactly the non-matching rows (with multiplicity) and touches no other table |
| Storage.WriteClauses | project.py:748-752 | the inner loop of `Table.update` computes `ApplyClauses` |
| Storage.SelectRows | project.py:834-851 | `select_rows` computes `SelectSpec` |
| Storage.Database.constructor | project.py:577-582 | a new database has no tables and no locks |
| Storage.Database.Copy | project.py:70 | the transaction copy has the same tables and locks |
| Storage.Database.AddReservedLock | project.py:584-592 | the lock fields change as `AddReserved` says, or not at all when refused; tables unchanged |
| Storage.Database.ReleaseReservedLock | project.py:594-596 | the lock fields change as `ReleaseReserved` says |
| Storage.Database.AddSharedLock | project.py:598-603 | the lock fields change as `AddShared` says, or not at all when refused |
| Storage.Database.RemoveSharedLock | project.py:605-607 | the lock fields change as `RemoveShared` says |
| Storage.Database.ReleaseExclusiveLock | project.py:609-611 | the lock fields change as `ReleaseExclusive` says |
| Storage.Database.AddExclusiveLock | project.py:613-621 | the lock fields change as `AddExclusive` says, or not at all when refused |
| Storage.Database.CommitLocks | project.py:623-628 | the lock fields change as `Commit` says, or not at all when the upgrade is refused |
| Storage.Database.CreateNewTable | project.py:630-639 | the tables become `CreateTableSpec`'s result, or stay when it raises; locks unchanged |
| Storage.Database.InsertInto | project.py:644-648 | the tables become `InsertSpec`'s result, or stay when it raises |
| Storage.Database.InsertDefaultInto | project.py:650-654 | the tables become `InsertDefaultSpec`'s result, or stay when it raises |
| Storage.Database.Update | project.py:656-659 | the row loop leaves the tables and the completion flag `UpdateSpec` gives |
| Storage.Database.Delete | project.py:661-664 | the tables become `DeleteSpec`'s result, or stay when it raises |
| Storage.Database.Drop | project.py:666-672 | the tables become `DropSpec`'s result, or stay when it raises |
| Storage.Database.Select | project.py:674-716 | the join and `select_rows` compute `DbSelect` |
| Substitution.FirstMark | project.py:52 | the position of the first `?`, or the length when there is none |
| Substitution.Substitute | project.py:46-51 | the inner loop of `executemany` computes `SubstituteAll` |
| Substitution.MarksAppend | project.py:52 | the `?` of two texts add up |
| Substitution.ReplaceFirstMarks | project.py:52 | replacing the first `?` removes one and adds those of the replacement |
| Substitution.MarksNone | project.py:52 | a text without `?` has none to replace |
| Substitution.SubstituteWithoutMarks | project.py:46-51 | a prefix without `?` is left alone by substitution |
| Substitution.ReplaceFirstAfter | project.py:52 | `replace("?", v, 1)` skips a prefix without `?` |
| Substitution.FirstMarkAfter | project.py:52 | the first `?` after a prefix without one |
| Substitution.FillWithoutMarks | project.py:46-51 | the one-pass fill leaves a prefix without `?` alone |
| Substitution.FillNoValues | project.py:46-51 | with no values the fill changes nothing |
| Substitution.SubstituteIsFill | project.py:46-51 | when no value's text holds `?`, substitution puts the i-th value at the i-th `?` of the statement |
| Substitution.FillAfterPrefix | project.py:46-51 | the fill puts the first value at the first `?` |
| Substitution.PrefixAndValueFree | project.py:46-51 | after one substitution, the text up to the value's end holds no `?` |
| Substitution.EmptyStaysEmpty | project.py:46-51 | the empty statement stays empty |
| Substitution.MarksFree | project.py:46-51 | a value text with no `?` has none at any position |
| Substitution.MarkInsideValue | project.py:46-51 | as written, a text value holding `?` has its `?` replaced by the next value: `??` with ('?', 1) gives `'1'?`, not `'?'1` |
| Substitution.RenderedTextReadsBack | project.py:48-49 | a substituted text without quotes tokenizes back to the same text |
| Substitution.EscapeWithoutQuote | project.py:48-49 | a text without quotes needs no escaping |
| Substitution.RenderedNatReadsBack | project.py:50-51 | a substituted natural number tokenizes back to the same number |
| Substitution.NullReadsBackAsWord | project.py:50-51 | a substituted None becomes the word `None`, not a null |
| Engine.WithTarget | project.py:158-164 | the write goes to the transaction copy while one is open, to the shared tables otherwise; nothing else changes |
| Engine.InsertLists | project.py:166-186 | the VALUES loop adds and removes no table |
| Engine.InsertListsRoundTrip | project.py:166-186 | the VALUES loop over lists written out `(..), (..)` inserts them as `InsertAll` does: all of them, or those before the first that does not fit |
| Engine.ExecAll | project.py:44-53 | running statements in turn returns nothing when none raises; no statements change nothing |
| Transactions.InsertShape | project.py:132-186 | an INSERT changes at most its locks, its write mark and its target tables |
| Transactions.UpdateShape | project.py:201-233 | an UPDATE changes at most its locks, its write mark and its target tables |
| Transactions.DeleteShape | project.py:235-251 | a DELETE changes at most its locks, its write mark and its target tables |
| Transactions.DropShape | project.py:468-480 | a DROP changes at most its target tables |
| Transactions.SelectShape | project.py:294-299 | a SELECT changes at most the locks |
| Transactions.CreateShape | project.py:82-130 | a CREATE changes neither the locks nor the transaction |
| Transactions.WriteLocksShape | project.py:147-155 | the write locks change no table and mark an open transaction as writing |
| Transactions.Dispatch | project.py:499-527 | each statement keyword goes to its handler; any other first token raises |
| Transactions.AutocommitKeepsConsistent | project.py:147-155 | the autocommit lock sequences keep the lock invariant |
| Transactions.CommitKeepsConsistent | project.py:482-491 | COMMIT's and ROLLBACK's lock changes keep the lock invariant |
| Transactions.StatementLocksKeepConsistent | project.py:147-155 | the locks a statement takes keep the lock invariant |
| Transactions.TokensKeepCoherent | project.py:499-527 | only an open transaction is ever marked as writing, whatever the statement |
| Transactions.ExecKeepsCoherent | project.py:55-527 | `execute` keeps that invariant |
| Transactions.TokensKeepLocksConsistent | project.py:499-527 | every statement keeps the lock invariant |
| Transactions.ExecKeepsLocksConsistent | project.py:55-527 | `execute` keeps the lock invariant |
| Transactions.TokensIsolated | project.py:499-527 | inside a transaction, no statement but CREATE and COMMIT changes the shared tables |
| Transactions.TransactionIsolated | project.py:55-527 | the same for whole statements |
| Transactions.TransactionBoundaries | project.py:499-527 | only BEGIN, COMMIT and ROLLBACK open or close a transaction, and a new one starts from a copy of the shared tables |
| Transactions.SelectIsReadOnly | project.py:273-466 | a SELECT changes no table and no connection state; a successful one leaves the caller in the shared set iff inside a transaction |
| Transactions.NestedBeginFails | project.py:57-70 | BEGIN inside a transaction raises and changes no table or connection state |
| Transactions.BeginOpens | project.py:57-70 | BEGIN copies the shared tables without a lock; IMMEDIATE succeeds iff reserved is granted; EXCLUSIVE iff exclusive is granted |
| Transactions.CommitPublishes | project.py:72-80 | COMMIT raises (changing nothing) iff the transaction wrote and cannot upgrade to exclusive; otherwise the copy becomes the shared tables and the caller holds no lock |
| Transactions.RollbackDiscards | project.py:482-491 | ROLLBACK keeps the shared tables, closes the transaction and leaves the caller holding no lock |
| Transactions.IdleEndFails | project.py:72-80 | COMMIT and ROLLBACK outside a transaction raise and change nothing |
| Transactions.BeginRollbackRestores | project.py:57-491 | BEGIN then ROLLBACK gives back the state before them |
| Transactions.CreatedTableLostAtCommit | project.py:82-123 | as written, a table created inside a transaction goes to the shared tables, and the COMMIT that follows overwrites them with the copy, which lacks it |
| Transactions.AutocommitInsertAppends | project.py:132-186 | an autocommit INSERT INTO t VALUES (...) on an idle database appends exactly the built row and leaves no lock |
| Transactions.InsertValuesOutcome | project.py:132-186 | an INSERT of one value list succeeds with the insert's tables |
| Transactions.ParseValuesTarget | project.py:156-171 | INTO t VALUES ... names t with no column list |
| Transactions.InsertOneList | project.py:166-186 | the VALUES loop over one list is one insert |
| Transactions.RefusedWriteMarksTransaction | project.py:147-151 | inside a transaction, a write refused reserved still marks the transaction as writing and changes no table |
| Transactions.WritesGoToCopy | project.py:158-186 | inside a transaction INSERT, UPDATE, DELETE and DROP leave the shared tables alone and the transaction open |
| Transactions.ExecAllAppend | project.py:44-53 | running two batches is running the first, then the second unless the first raised |
| Transactions.ExecAllFirstFails | project.py:44-53 | a batch whose first statement raises ends with it |
| Transactions.ExecAllStopsAtFailure | project.py:44-53 | `executemany` stops at the first statement that raises |
| Transactions.SemicolonRequired | project.py:495-497 | a statement not ending in `;` raises and changes nothing |
| Connections.Substituted | project.py:44-53 | one statement per value set, each the statement with that set substituted |
| Connections.Connection.constructor | project.py:21-39 | a new connection has no transaction, no views and no collations |
| Connections.Connection.CreateCollation | project.py:41-42 | the collation is registered under its name; nothing else changes |
| Connections.Connection.Begin | project.py:57-70 | the new state and result are `ExecBegin`'s |
| Connections.Connection.Commit | project.py:72-80 | the new state and result are `ExecCommit`'s |
| Connections.Connection.Rollback | project.py:482-491 | the new state and result are `ExecRollback`'s |
| Connections.Connection.Create | project.py:82-130 | the new state and result are `ExecCreate`'s |
| Connections.Connection.Drop | project.py:468-480 | the new state and result are `ExecDrop`'s |
| Connections.Connection.TakeWriteLocks | project.py:147-155 | the lock steps of a write are `WriteLocks` |
| Connections.Connection.Insert | project.py:132-186 | the new state and result are `ExecInsert`'s |
| Connections.Connection.InsertValueLists | project.py:166-186 | the VALUES loop leaves the tables `InsertLists` gives |
| Connections.Connection.Update | project.py:201-233 | the new state and result are `ExecUpdate`'s |
| Connections.Connection.Delete | project.py:235-251 | the new state and result are `ExecDelete`'s |
| Connections.Connection.Select | project.py:273-466 | the new state and result are `ExecSelect`'s |
| Connections.Connection.Execute | project.py:493-527 | the new state and result are `Exec`'s, and the connection invariant holds |
| Connections.Connection.ExecuteMany | project.py:44-53 | the new state and result are those of running the substituted statements in turn until one raises; when none raises it returns nothing |

## Left out

- Views: `ViewNotModelled` is returned when a SELECT reads from a stored view. The view branch of `select` (project.py:326-371) re-executes the view's query, and that is not modelled. CREATE VIEW itself is modelled.
- Floating point: `Real(whole, frac)` keeps the digit strings and compares by exact decimal value; binary rounding of Python floats is not modelled.
- Comparisons involving None, or between different kinds: Python raises TypeError for `None < None`, `None < 1` or `1 < 'a'`. `Values.Less` instead ranks None below numbers below text, so these succeed where the source raises. In WHERE the operands of `<` and `>` are never None (project.py:773-774, and the parser allows NULL only after IS), but a number compared with a text still raises in the source. `min`/`max` raise in the source on any column holding None, since every row, the first included, is compared with the running value (project.py:449-461). ORDER BY without a collation raises in the source whenever two or more rows are sorted and a key value is None (project.py:818).
- Sorting.SortSpecSorted: the sortedness theorem assumes each collation is a strict weak order (`WeakOrder`); an arbitrary collation function is not constrained.
- Query.Project: `generate_tuples` is lazy in the source, so a missing column raises only when the rows are consumed; the model raises at once. Without DISTINCT the source returns that generator over the live row dicts of the table, so a later `Table.update` (project.py:748-752), which changes those dicts in place, changes what a result not yet consumed yields; the model's result is a value fixed when SELECT runs.
- Columns.InColumns: membership `x in cols` is modelled as `any(x == e for e in cols)`, the operand order of the language reference, with the searched name on the left; since `QualifiedColumnName.__eq__` is not symmetric (project.py:555-563) the order matters. Interpreters that evaluate `e == x` instead (CPython 3.9 and later) reject the unqualified SELECT columns that `check_columns_exist` (project.py:794-796) accepts here.
- Tokenizer.ScanLoop: the model raises at every true loop test at index -1, that is, when the search after an escaped quote fails and the text left begins with the delimiter. The source instead splices `query[:-1] + query` and goes round again. From there it may cycle for ever (`'''x`, Tokenizer.TextLoopNeverExits) or stop later with a misread text (`'''x;` reads the empty text and leaves `x'x;` to tokenize; Tokenizer.TextLoopWrapsAround). So Tokenizer.ScanText, Tokenizer.RemoveText, Tokenizer.NextLexeme, Tokenizer.Lex and Tokenizer.Tokenize reject every input that reaches such a test, including inputs the source tokenizes. At every other test the scan follows the loop as written (Tokenizer.ScanTextOutcome), including an unclosed literal such as `'x;`, which tokenizes to `x`, `x`, `;` (Tokenizer.LexUnclosedText).
- The module globals `_ALL_DATABASES` and `_TRANSACTION_CNTR` (project.py:8-9) and `connect` / `close` (project.py:529-542): the constructor takes the shared `Database` and the connection id as parameters.
- The registry re-fetch at project.py:493 is not modelled: the connection keeps its `Database` reference.
- Exception types: every exception (`AssertionError`, `IndexError`, `KeyError`, `TypeError`, `Exception`) is `Raised`.
- The length assertion at project.py:175-176 is not modelled separately: `BuildRow` rejects the same value lists.
- Substitution.Render: `executemany` writes floats with Python's `str`; the model writes `whole.frac` as it was read.
- `copy.deepcopy` of the database is a value copy (`Database.Copy`); the view queries are copied as token sequences.
- `pop_and_check` and `tokens.pop(0)` mutate one shared list in the source; the model threads immutable token sequences (`Expect`, `Pop`) through the parser.
- `order_by_columns.reverse()` mutates the caller's list in the source; the model walks the keys backwards.
- Collation calls are pure functions here; a collation that raises or has side effects is not modelled.

## Findings

| source | as written | input that shows it | evidently intended | confidence | as-written member | corrected member |
|---|---|---|---|---|---|---|
| project.py:888-897 | after an escaped quote, when the search for the closing quote fails (index -1) and the text left begins with the delimiter, the loop test is true at index -1: the next turn splices the text's end before its start (`query[:-1] + query`) and searches again from 0, so the escape loop can return to an earlier state and never end, or end on a text it has rebuilt | `'''x` (the loop alternates between two states for ever) and `'''x;` (the source reads the empty text and leaves `x'x;`) | after an escaped quote, a missing closing quote ends the scan with an error instead of wrapping round to the text's start; every other test of the loop keeps its behaviour | not executed | Tokenizer.TextLoopNeverExits | Tokenizer.ScanTextOutcome |
