# Verified model of the query front end

This project models the algorithms of the query front end that turn GraphQL text into selects, filters, writes and
per-database queries, together with the byte scanners and the compile cache beside them, and proves what they keep and
compute. Everything is written in Dafny 4.11; `dafny verify dfyconfig.toml` checks the whole project.

Code that works in place is modelled in place: methods with loops and, where the program keeps an object, classes whose
methods state the whole new state. Each such method is proved to compute a specification function, and the theorems are
lemmas about those functions, so that they hold of the loops.

| Component | Modules |
|---|---|
| Keyset pagination: completing the order list, the seek predicate as it is built in memory and what it means, walking a table page by page | `Expressions`, `SeekPredicate`, `SeekMemory`, `OrderSelect`, `Pagination`, `OrderDirections` |
| Filter compiler: a stack of nodes and a graph of expression objects, and what its words admit of a row | `FilterCompiler`, `FilterMeaning` |
| Parser: tokens, field forest, fragments, the parser object, documents, and documents with their fragments inlined | `GraphSyntax`, `FieldDirectives`, `FieldForest`, `FieldParser`, `FragmentSpread`, `GraphParser`, `GraphDocument`, `DocumentHeads`, `KeywordFields`, `HeadLoop`, `OperationHead`, `InlinedDocument`, `FragmentExamples` |
| Lexer and string literals | `StringValue`, `Escapes`, `GraphLexer`, `LexicalGrammar`, `LexedTokens` |
| Rebuilding a query for one database, and parsing it back | `ParsedFields`, `FieldTrees`, `QueryText`, `QueryTree`, `QueryBuild`, `QueryRoundTrip` |
| Select worklist with packed ids | `SelectWorklist`, `SelectRoutes` |
| Mutation planner: items, the stack machine, whole runs of it, order and dependencies, names | `MutationItems`, `MutationKeys`, `MutationPlan`, `MutationRun`, `MutationOrder`, `MutationDeps`, `MutationPlanner`, `MutationNames`, `WriteNames`, `PlanNames` |
| JSON scanners | `Json`, `JsonBytes`, `JsonGet`, `JsonPairs`, `JsonFilter`, `JsonKept` |
| Single-flight compile cache as interleaved steps | `CompileCache`, `CacheHits` |
| Script splitter and argument slicing | `SqlScript`, `SqlGrammar` |
| Primary keys of views | `ViewKeys`, `ViewColumns` |
| Splitting by database and merging results | `DatabaseSplit`, `SplitQueries` |
| What several share | `Common` |

## Main results

* Pages: `SeekHasTree` says when the seek predicate that is built has a truth value, `SeekMeaning` what it then says of every
  row, null values included, and `KeysetPagination` that requesting page after page delivers every row once.
* Parsing: every reached state is a pre-order forest (`ReachedIsForest`), and fragments may be written inline
  (`DocumentInlines`), because a body parsed in place is a splice (`RunEmbeds`). Texts of lexemes are read as their tokens
  (`TextIsRead`), and heads, headers and fragments as what their tokens say (`HeadRead`, `ParsesField`, `InlineRead`).
* Rebuilding: what is printed for one database is lexed and parsed back (`TextRoundTrip`), to the very trees exactly if their
  strings survive printing (`LiteralSurvives`). Each root is in one database's text (`RootPrintedOnce`), and the merged answers
  have exactly the roots' keys (`MergedAnswersAllRoots`).
* Mutations: the planner keeps its invariant in every round (`StepKeepsInv`), emits everything it ever plans exactly once
  (`EmittedOnce`), records exactly the dependencies that the relations ask for (`CompileMutation`, `EdgeRecordedOnce`,
  `LookupReadOnce`), emits in an order without cycles (`NoCycles`, `ReadsComeFirst`), and gives names that are apart exactly
  when `PlanNamedApart` says so.
* Selects: the worklist makes one select per reached field and succeeds exactly when they fit (`CompileQuery`).
* Filters: the stack and object graph compute the recursive reading (`CompileExpNode`, `CompiledMeansReading`), and each word
  of a filter admits the rows that it names (`AndMeans`, `WordMeans`, `OrderMeans`).
* Bytes: the JSON scanners end on every text (`Get`, `FilterAliased`) and are exact on JSON with any white space between its
  tokens (`GetPrinted`, `FilterPrintedList`); the script splitter cuts every text where its grammar says (`ScriptIsCut`,
  `EveryTextIsSpelled`) and conserves every byte (`SplitConserves`).
* Concurrency: in every interleaving a cell is compiled at most once, every run ends (`EachCellCompiledOnce`,
  `EveryRunEnds`), a finished statement is served without compiling (`HitIsServed`), and one compilation serves all requests
  (`OneCompilationServesAll`).

## What does not hold everywhere

Some promises hold only under a condition. The program is modelled as it is, and the condition is proved: exact conditions
are said to be so, the others only suffice.

* The seek predicate is built from lists that are extended in place. As soon as a nullable column's three terms fit behind
  the list of disjuncts in its own array, the expression contains itself and has no truth value; otherwise it is the expected
  tree (`SeekHasTree`, exact). When capacities double that is so from five entries on, if one of the first five columns is
  nullable (`FiveEntries`), and never for columns that are not null (`NotNullUnshared`).
* That tree is the lexicographic order wherever the ordered values are present (`SeekIsLexicographic`). In general a null
  in a nullable column, of the row or of the cursor, counts as equal and as beyond at once (`SeekMeaning`, exact): such a row
  passes when the entries in front agree (`NullPasses`), and every cursor when the column leads (`NullRowPassesEveryCursor`).
* A document and its operation alone with the fragments written inline parse to the same operation exactly when no
  definition that is met while scanning the latter is refused and its tokens start at most as many fields as allowed;
  where the operation's head does without the word "fragment", the former means that no name is that word
  (`DocumentInlines`). A fragment may have a field of that name, which its definition takes (`FragmentFieldBreaks`), and
  the limit is looked at before a spread and not behind it (`SpreadPassesLimit`).
* A rebuilt query none of whose strings ends in a backslash parses exactly when some root is allowed, its fields are within
  the limit, and no name left is the word "fragment"; the same trees come back exactly if, besides, all its strings survive
  (`TextRoundTrip`, `RebuiltBreaks`).
* An operation head is read for ever exactly when no parenthesis closes it, no variable definition in it is malformed, and
  there are fewer than 25; a malformed or 25th one makes the head refused (`HeadEnds`, exact; `UnclosedIsEndless`,
  `UnclosedIsRefused`).
* A string survives printing and parsing exactly when no backslash of it begins an escape once its quotes are escaped, and
  none ends it (`LiteralSurvives`); a backslash before an n becomes a newline (`NewlineChanged`).
* The packed field id is exact exactly below 2 to the 16th (`PackDecodesOnlySmall`).
* A query with exactly as many selects as allowed is refused when its first root is a keyword (`Fits`, used by
  `CompileQuery`; `KeywordInFront`): the keyword still waits at the bottom of the stack.
* The order in which writes are emitted respects all dependencies except exactly those on children on the parent's side
  of a one-to-many relation, which the insert reads although they come later (`ReadsComeFirst`).
* Under an insert a nested write and its parent are linked in one direction, except where the relation leads from a table to
  itself that is not the parent's: then in none (`EdgeRecordedOnce`, exact).
* A cell that any request may use can be dropped: an error is deleted by its key, so a request that found an old error stale
  deletes a newer good cell too (`LateDeleteDropsGoodCell`). A cell leaves its slot exactly when a request gives it up as
  per-request, or deletes the key after finding some error stale (`SlotLeaves`, exact).
* Names of writes meet exactly when a table is called like the numbered write of another (`NamesMeet`, `PlanNamedApart`).
* `or` and `not` over elements with several keys do not mean what they read (`OrSplitsElements`, `NotReadsLast`); one key per
  element suffices for them to (`CompiledMeansReading`), but is not shown to be necessary.
* A list of objects that also holds a string makes `Get` read the string as a key (`StrayStringMisread`); lists of objects
  alone, and of scalars alone, are read as they should be (`GetPrinted`), which again only suffices.
* A carriage return behind a list's bracket hides the objects of the list from `Get` (`ReturnHidesList`); a list is entered
  exactly when its first item is an object and no carriage return stands in front of it (`ListEntered`, exact).

## Model

| member | source | states |
|---|---|---|
| `SeekMemory.SeekHasTree` | graphql/qcode.go:798-881 | For every order list and every growth of slices: the objects that are built stand for a finite expression exactly when no nullable column's terms are appended within the capacity of the list of disjuncts; and then for the expected OR of ANDs |
| `SeekMemory.SharedHasNoTree` | graphql/qcode.go:862-877 | Where they are, the expression contains itself, however deep one looks |
| `SeekMemory.FiveEntries` | graphql/qcode.go:862-877 | When capacities double: never up to four entries, and always from five entries on with a nullable column among the first five |
| `SeekMemory.NotNullUnshared` | graphql/qcode.go:850-867 | Columns that are not null never share a list, whatever the length and the growth |
| `SeekPredicate.SeekMeaning` | graphql/qcode.go:798-881 | For every order list and every row and cursor whose NOT NULL columns are present: the expected expression is true exactly of the rows that pass entry by entry, a null on either side of a nullable column counting as equal and as beyond, and false of the others |
| `SeekPredicate.SeekIsLexicographic` | graphql/qcode.go:798-881 | Where the row and the cursor have all ordered values, it holds exactly of the rows strictly after the cursor in lexicographic order |
| `OrderDirections.OneColumn` | graphql/qcode.go:838-846 | The two directions written out: behind a cursor an ascending column admits the greater values, a descending one the lesser |
| `OrderDirections.TwoColumns` | graphql/qcode.go:798-881 | And for two columns, the first descending |
| `OrderDirections.VariantColumn` | graphql/qcode.go:808-836 | A configured variant is read from the cursor under the column's name, an underscore and the variant's |
| `OrderDirections.OneColumnSorts` | graphql/qcode.go:838-846 | The rows of a page ascend or descend in the same way |
| `OrderDirections.ColumnFound` | graphql/fields.go:525-529 | A base column is there if one has the name, each letter in either case |
| `SeekPredicate.NullPasses` | graphql/qcode.go:850-867 | A row that is null in a nullable column passes as soon as the entries in front of it agree or are null |
| `SeekPredicate.AbsentCursorAdmitsAll` | graphql/qcode.go:802-880 | Without a cursor the expected expression holds of every row, null values included |
| `SeekPredicate.NullRowPassesEveryCursor` | graphql/qcode.go:850-867 | A row that is null in a nullable leading column passes every cursor |
| `SeekPredicate.CompleteOrdersEveryKey` | graphql/fields.go:454-468 | The completed order list starts with the given one and orders by every key column |
| `OrderSelect.Select.AddBaseCol` | graphql/fields.go:525-529 | A base column is appended unless a column of that name, in any case, is there |
| `OrderSelect.Select.OrderByIDCol` | graphql/fields.go:449-469 | Fails exactly without a key; otherwise the list is completed with the key columns it lacks, in key order |
| `OrderSelect.Select.AddAndFilter` | graphql/qcode.go:1159-1173 | The new filter is the conjunction of the expression and the old filter |
| `OrderSelect.Select.AddAndFilterLast` | graphql/qcode.go:1141-1157 | The same conjunction, the expression behind the old filter |
| `OrderSelect.Select.AddNotFilter` | graphql/qcode.go:1175-1193 | The new filter is the old one and the negation of the expression |
| `OrderSelect.Select.AddSeekPredicate` | graphql/qcode.go:798-881 | Builds the expression over slices with backing arrays; it has a tree exactly when no list is shared, and then the filter becomes the conjunction of the old filter and the seek predicate |
| `Pagination.KeysetPagination` | graphql/qcode.go:275-296 | For every table, every plain order list over present values whose predicate shares no list, and every page size of one or more: completing the list with the key and requesting page after page with the last row's cursor delivers every row exactly once, in order, and then nothing |
| `Pagination.NotNullPagination` | graphql/qcode.go:275-296 | So it does for order lists of any length over columns that are not null |
| `Pagination.WalkVisitsEveryRowOnce` | graphql/qcode.go:275-296 | The same for any list that tells all rows apart and shares none |
| `Pagination.AdmitsAfter` | graphql/qcode.go:798-881 | The predicate as it is built for a row's cursor, no list shared, admits exactly the rows ordered after that row |
| `Pagination.CompletedListSeparates` | graphql/fields.go:449-469 | A list completed with the key orders any two rows that differ on the key |
| `CompileCache.ActKeepsInv` | core/engine/gstate.go:185-225 | Every atomic step of every request keeps the protocol's invariant |
| `CompileCache.EachCellCompiledOnce` | core/engine/gstate.go:185-214 | In every interleaving a cache cell is compiled at most once, and exactly once when it is finished |
| `CompileCache.FinishedCellIsFrozen` | core/engine/gstate.go:206-214 | A finished cell's statement and error never change afterwards |
| `CompileCache.ReturnedErrorsAreFresh` | core/engine/gstate.go:189-200 | An error a request returns was recorded less than the time limit before that request's own freshness check, or after it |
| `CompileCache.SuccessHoldsOwnShape` | core/engine/gstate.go:216-224 | A request that succeeds holds a finished cell without an error whose statement is not per-request, or a private statement compiled from its own variables |
| `CompileCache.MetPerRequestEndsPrivate` | core/engine/gstate.go:216-224 | A request that meets a finished per-request statement ends with a cell of its own, never with the shared one |
| `CacheHits.HitIsServed` | core/engine/gstate.go:185-225 | A request that finds a finished statement which is not one request's own returns that very cell without an error, and never compiles, whatever the other requests do |
| `CacheHits.FreshErrorIsServed` | core/engine/gstate.go:189-200 | A request that found a cell's error fresh returns that error and never compiles |
| `CacheHits.ErrorIsChecked` | core/engine/gstate.go:189-200 | An error is fresh less than 30 ticks after it was recorded, and stale otherwise |
| `CacheHits.SlotLeaves` | core/engine/gstate.go:185-225 | In every run the slot leaves a cell exactly when a request gives that finished per-request cell up, or deletes the key because it found an error stale |
| `CacheHits.LateDeleteDropsGoodCell` | core/engine/gstate.go:189-200 | A run in which the second of two requests that found the same error stale deletes the good cell the first one made |
| `CacheHits.SettledForGood` | core/engine/gstate.go:185-225 | A servable cell that nobody is about to delete stays in the slot for good, no cell is created any more, and every request that starts returns it |
| `CacheHits.OneCompilationServesAll` | core/engine/gstate.go:185-225 | If no compilation fails and none is per-request: in every interleaving of any number of requests one cell is created, compiled once, and returned by every request |
| `CacheHits.OutcomeIsKept` | core/engine/gstate.go:206-214 | A finished cell holds what the compiler answered: the statement for the compiling request's variables, or the error |
| `CacheHits.RecompilingReturns` | core/engine/gstate.go:216-224 | A request that compiles for itself returns the compiler's answer for its own variables |
| `CompileCache.SomeoneCanMove` | core/engine/gstate.go:206-214 | While some request has not returned, some request can take a step: waiting for a compilation cannot deadlock |
| `CompileCache.EveryRunEnds` | core/engine/gstate.go:185-225 | No interleaving contains more than a fixed number of steps per request |
| `JsonGet.Get` | core/jsn/get.go:45-178 | The rewinding index loop computes the scan on every byte string, and ends: each jump back goes to a strictly later place than the one before |
| `JsonGet.Resume` | core/jsn/get.go:110-168 | Where the index jumps after a value: back into it when it opens an object, or a list whose first item does |
| `JsonPairs.GetPrinted` | core/jsn/get.go:65-178 | On every JSON text, with any white space between its tokens, in front and behind, `Get` returns exactly the requested pairs, outer before inner, with the exact bytes of their values, where no list that is entered holds a bare string |
| `JsonPairs.ListEntered` | core/jsn/get.go:156-168 | A list is entered exactly when it opens with an object and no carriage return is in front of that |
| `JsonPairs.ReturnHidesList` | core/jsn/get.go:156-168 | An input for which a carriage return hides what a list holds, and the same input with a newline |
| `JsonPairs.StrayStringMisread` | core/jsn/get.go:65-178 | An input for which that fails: in a list of objects that also holds a string, the string is read as a key |
| `Json.ValueCloses` | core/jsn/get.go:65-146 | The state machine leaves a value other than a number exactly at its last byte, whatever it nests and however its strings are escaped |
| `Json.NumberCloses` | core/jsn/get.go:123-130 | A number is left exactly at the delimiter behind it |
| `JsonFilter.FilterAliased` | core/jsn/filter.go:31-222 | The index loop with its state variables computes the filter pass on every byte string |
| `JsonFilter.EmitPair` | core/jsn/filter.go:161-199 | A source pair is written once for every requested field with its key, renamed, in request order |
| `JsonFilter.WritePairCleaned` | core/jsn/filter.go:227-247 | Writing in stretches leaves out exactly the raw newlines and tabs |
| `JsonKept.FilterPrintedObject` | core/jsn/filter.go:31-222 | An object, with any white space between its tokens, in front and behind, comes out as the print of the object whose pairs are kept once per requested field, renamed, in request order, nested values untouched |
| `JsonKept.FilterPrintedList` | core/jsn/filter.go:31-222 | The same for a list of objects |
| `JsonKept.KeepIsOfTree` | core/jsn/filter.go:161-199 | What is kept depends on the tree alone, not on the white space in its text |
| `SqlScript.SplitQuery` | core/dialect/sqlite.go:1404-1526 | The flag-driven loop computes the quote, comment and BEGIN/END automaton on every text |
| `SqlScript.ScanQuoted` | core/dialect/sqlite.go:1447-1473 | A doubled quote is one step that stays inside; a single one leaves |
| `SqlScript.SplitJoined` | core/dialect/sqlite.go:1404-1526 | Splitting closed statements joined by semicolons gives the trimmed statements that are not blank, in order |
| `SqlGrammar.ScriptIsCut` | core/dialect/sqlite.go:1404-1526 | A script of strings and quoted names with doubled quotes inside, line comments, words and other bytes is cut exactly at the semicolons between them that no BEGIN .. END, in any case, encloses; the parts are the trimmed statements that are not blank |
| `SqlGrammar.EveryTextIsSpelled` | core/dialect/sqlite.go:1404-1526 | Every text is such a script |
| `SqlGrammar.TrimMeans` | core/dialect/sqlite.go:1404-1526 | Trimming takes the white space off both ends and nothing else |
| `SqlScript.SplitConserves` | core/dialect/sqlite.go:1404-1526 | Whatever the text, every byte that is neither white space nor a semicolon, the parameter mark included, is in the parts as often as in the text |
| `SqlScript.SliceArgs` | core/engine/gstate.go:734-749 | The argument slices have the lengths of the statements' marks, are consecutive and together are a prefix of the arguments; failure exactly when arguments run out |
| `SqlScript.ExecuteScript` | core/engine/gstate.go:722-749 | A script needs exactly as many arguments as its unsplit text has marks |
| `ViewKeys.InferViewPKs` | core/introspection/tables.go:674-761 | The map loops compute the same column map for every iteration order |
| `ViewKeys.FindBase` | core/introspection/tables.go:708-747 | The best-with-tie search finds the winner exactly when there is one |
| `ViewKeys.WinnerUnique` | core/introspection/tables.go:708-750 | At most one base table wins a view |
| `ViewKeys.MarkedExactly` | core/introspection/tables.go:674-761 | A column is marked exactly when it belongs to the key of the base table that wins its own keyless table |
| `ViewKeys.KeysInferred` | core/introspection/tables.go:674-761 | A keyless table gets the key of the one same-schema base table with the largest overlap whose whole key it has, and no key otherwise |
| `ViewColumns.ColumnsInferred` | core/introspection/tables.go:674-761 | Said of the entries alone: a column becomes primary and unique exactly when its table has no key, is no internal one, and its name is in the key of the one table of the schema whose whole key the view has and with which it shares the most other columns; nothing else changes |
| `ViewColumns.WinnerIsBest` | core/introspection/tables.go:708-747 | The winner is that table |
| `DatabaseSplit.DatabaseGiven` | core/engine/gstate.go:334-350 | A root's database is that of the first table entry of its name that names one, or else the default |
| `DatabaseSplit.GroupRootsByDatabase` | core/engine/gstate.go:334-350 | The groups list exactly the databases with roots, each with its roots in query order |
| `DatabaseSplit.EveryRootInOneQuery` | core/engine/gstate.go:315-350 | Every root that is no keyword is in the sub-query of its own database and in no other |
| `DatabaseSplit.KeywordRootsDropped` | core/dbjoin/dbjoin.go:139-145 | A keyword root is kept only where another root has its name |
| `DatabaseSplit.MergeRootResults` | core/dbjoin/dbjoin.go:61-102 | Merging fails for the first database that failed, passes one result through, and unites several, or else names a database whose result is no object or a key that repeats |
| `DatabaseSplit.MergeOrderIrrelevant` | core/dbjoin/dbjoin.go:61-102 | The order of the results decides neither success nor the merged object |
| `DatabaseSplit.MergedHasExactlyTheKeys` | core/dbjoin/dbjoin.go:77-94 | A merged object has every key some result has, with its value, and no other |
| `SplitQueries.RootInOneQuery` | core/dbjoin/dbjoin.go:139-145 | Every root that is no keyword is among the fields kept for its own database and for no other |
| `SplitQueries.RootPrintedOnce` | core/dbjoin/dbjoin.go:128-180 | The trees in the text rebuilt for a database are those of its kept fields, and a root's name is allowed there exactly if the database is the root's |
| `SplitQueries.MergedAnswersAllRoots` | core/dbjoin/dbjoin.go:61-102 | When every database answers exactly its roots, and roots of different databases have different keys, merging succeeds and the answer has exactly the keys of all roots |
| `FilterCompiler.CompileExpNode` | graphql/exp.go:41-111 | The stack loop succeeds exactly on non-empty filters without an invalid node that is reached, and the expression objects it links form the expected tree |
| `FilterCompiler.CompiledMeansReading` | graphql/exp.go:63-111 | With one key per list element, the compiled filter has the truth value of the recursive reading on every row, columns distributed over and/or lists |
| `FilterMeaning.AndMeans` | graphql/exp.go:249-286 | `and`, with an underscore in front or without: accepted exactly with two or more accepted elements, and true of a row exactly when all of them are |
| `FilterMeaning.OrMeans` | graphql/exp.go:287-298 | `or`, the same, with one key per element: true exactly when one of them is |
| `FilterMeaning.NotMeans` | graphql/exp.go:299-308 | `not` over one condition: true exactly when that is false |
| `FilterMeaning.GroupMeans` | graphql/exp.go:98-132 | Conditions next to each other all have to hold |
| `FilterMeaning.ColumnDistributes` | graphql/exp.go:249-308 | The three words below a column: the column with each of the elements |
| `FilterMeaning.WordNamesOperator` | graphql/exp.go:310-420 | Every spelling of every comparison, with an underscore in front or without, is compiled to that comparison |
| `FilterMeaning.OtherWordsNameNone` | graphql/exp.go:310-420 | No other word is a comparison |
| `FilterMeaning.WordMeans` | graphql/exp.go:179-212 | A column with a comparison and a value is accepted exactly if the value fits it, and then true exactly of the rows for which the comparison holds |
| `FilterMeaning.OrderMeans` | graphql/exp.go:310-420 | The six orders written out: `{ price: { gt: x } }` admits exactly the rows whose price is greater than x |
| `FilterMeaning.BareValueMeans` | graphql/exp.go:214-245 | A value by itself asks for equality, a list for one of its members, an array column for a common element |
| `FilterMeaning.ColumnAgainstColumn` | graphql/exp.go:532-602 | Against another column the two values of the row are compared |
| `FilterMeaning.OtherWordRefused` | graphql/exp.go:184-195 | Any other word below a column is refused |
| `FilterMeaning.OtherColumnRefused` | graphql/exp.go:815-882 | So is a column the table does not have |
| `FilterCompiler.OrSplitsElements` | graphql/exp.go:129-131 | An input for which it fails: an `or` element with two keys becomes two alternatives |
| `FilterCompiler.NotReadsLast` | core/sqlgen/exp.go:111-113 | An input for which it fails: a `not` with several conditions negates one of them alone |
| `FilterCompiler.Attach` | graphql/exp.go:98-107 | A finished node is hooked under its parent, or joined to the root by a new `and` |
| `FilterCompiler.Visit` | graphql/exp.go:123-245 | One visit replaces a group by its nodes, makes an operator or comparison, or refuses the node |
| `FilterCompiler.ChainMeaning` | graphql/exp.go:98-104 | Joining the conditions at the top pairwise is their conjunction |
| `DocumentHeads.HeadRead` | core/graph/parse.go:279-315 | An operation's word, name, variable definitions and directives are read up to its selection; only the lower-case words open their own kind |
| `DocumentHeads.HeadMissing` | core/graph/parse.go:242-265 | Without a word the selection is that of a query; any other token in its place is refused |
| `DocumentHeads.DefinitionsRead` | core/graph/parse.go:533-635 | Variable definitions are read in order: the default if there is one, or else the type as text, and of a bare variable nothing |
| `DocumentHeads.OperationFound` | core/graph/parse.go:142-167 | The operation starts at the first brace or operation word outside of fragments; what stands in front is skipped |
| `DocumentHeads.DefinitionRegistered` | core/graph/parse.go:187-240 | A fragment definition registers its selection's fields under its name, in place of an earlier one |
| `DocumentHeads.DefinitionRefused` | core/graph/parse.go:187-215 | Without name, "on", type and brace behind the word, in any case, the document is refused |
| `DocumentHeads.InlineRead` | core/graph/parse.go:416-445 | An inline fragment makes the innermost open field a union and the type a member of it; all members have the union's arguments; other fields stay |
| `DocumentHeads.UnknownRefused` | core/graph/parse.go:446-456 | A spread of an undefined fragment is refused |
| `KeywordFields.DocumentKeywords` | core/graph/parse.go:175-184 | In every parsed document the keywords are exactly the root fields without arguments that no field has as parent |
| `FieldDirectives.ParsesField` | core/graph/parse.go:497-531 | A field is parsed to its alias, name, arguments and directives |
| `FieldDirectives.ParsesDirectives` | core/graph/parse.go:678-696 | Directives are parsed to their names and arguments, in order |
| `FieldDirectives.ArgumentLimit` | core/graph/parse.go:647-676 | A field with 24 arguments is read; with a 25th it is refused |
| `FieldParser.StepKeepsInv` | core/graph/parse.go:341-376 | Every round of the field loop keeps: ids are positions, parents in front, children lists the ascending inverse of parents, pre-order, stack the chain of open ancestors |
| `FieldParser.ReachedIsForest` | core/graph/parse.go:333-495 | So does every state that is reached, on every token list and with every sound set of fragments |
| `FieldParser.ParsedIsForest` | core/graph/parse.go:333-379 | Whatever the field parser returns is a pre-order forest |
| `FieldForest.SpliceForest` | core/graph/parse.go:446-491 | Appending a forest with shifted ids below a field gives a forest |
| `FieldForest.SplicePreOrder` | core/graph/parse.go:446-491 | It stays in pre-order when the field is the innermost open one, and the stack stays the path to the edge |
| `FieldForest.SpliceAssoc` | core/graph/parse.go:446-491 | Splicing into a fragment and then splicing that is splicing twice |
| `FragmentSpread.RunExpands` | core/graph/parse.go:416-495 | A run that spreads fragments and the run over the tokens with the bodies written out end with the same fields |
| `InlinedDocument.DocumentInlines` | core/graph/parse.go:124-172 | Whenever a document parses: the operation alone, with the bodies of the fragments in the place of their spreads, parses to the same operation if its own scan for definitions succeeds and it starts at most 1200 fields, and is refused otherwise; and if the word "fragment" is not in its head, the scan succeeds exactly when no name is that word |
| `InlinedDocument.RunCounted` | core/graph/parse.go:333-414 | A run makes exactly as many fields as its tokens start: names outside of arguments that are neither an alias nor a directive's name |
| `InlinedDocument.CountsAllFields` | core/graph/parse.go:353-358 | The inlined tokens start as many fields as the document's operation has, spreads included |
| `InlinedDocument.ScanRefuses` | core/graph/parse.go:142-152 | Where "on" stands only behind spreads, a name that is the word "fragment" makes the document fail |
| `GraphDocument.DocumentIsForest` | core/graph/parse.go:124-185 | Whatever a document is parsed to, its fields are a pre-order forest |
| `HeadLoop.HeadEnds` | core/graph/parse.go:533-555 | For every token list that ends with the end: the loop over variable definitions runs for ever exactly when no closing parenthesis is in it and no round meets a malformed definition or starts with 25 of them; such a round makes the head refused; otherwise the head is complete |
| `HeadLoop.EndlessExactly` | core/graph/parse.go:533-555 | Running for ever is what the recursive reading of the head calls endless, and any other result is reached after some round |
| `HeadLoop.UnclosedIsEndless` | core/graph/parse.go:533-555 | A variable with nothing behind it is read for ever |
| `HeadLoop.UnclosedIsRefused` | core/graph/parse.go:557-583 | A variable with a colon and no type behind it is refused, though nothing closes the head |
| `FragmentExamples.FragmentFieldBreaks` | core/graph/parse.go:146-150 | `fragment A on T { fragment x } query { a { ...A } }` parses; with its fragment inlined it is refused |
| `FragmentExamples.RebuiltBreaks` | core/graph/parse.go:146-150 | The same document parses, but what is rebuilt of it for root a is refused |
| `FragmentExamples.SpreadPassesLimit` | core/graph/parse.go:356-358 | A document with a fragment of 1200 fields parses to 1201 fields where it is spread below another; inlined it is refused |
| `FragmentSpread.RunEmbeds` | core/graph/parse.go:440-491 | A body parsed in place leaves the outer state with the body's fields spliced in |
| `GraphParser.Parser.ParseValue` | core/graph/parse.go:779-812 | The position-moving method computes the value and the tokens left |
| `GraphParser.Parser.ParseList` | core/graph/parse.go:698-728 | List loop, ended by a bracket or the end of the tokens |
| `GraphParser.Parser.ParseObj` | core/graph/parse.go:730-777 | Object loop, ended by a brace or the end of the tokens |
| `GraphParser.Parser.ParseArgs` | core/graph/parse.go:637-676 | Argument loop with its limit of 25 |
| `GraphParser.Parser.ParseField` | core/graph/parse.go:497-531 | Alias, name, arguments and directives of a field |
| `GraphParser.Parser.ParseNormalFields` | core/graph/parse.go:382-414 | Appends one field, notes it with its parent and opens it |
| `GraphParser.Parser.ParseFragmentFields` | core/graph/parse.go:416-495 | Inline fragment or named fragment, as the spec of one step says |
| `GraphParser.Parser.AppendFragment` | core/graph/parse.go:446-491 | Append, then patch ids, parents and children one by one, is one splice |
| `GraphParser.Parser.ParseFields` | core/graph/parse.go:333-379 | The loop with stack and array computes the run of the machine |
| `GraphParser.Parser.ParseFragmentHead` | core/graph/parse.go:190-215 | Name, "on", type and opening brace, in this order |
| `GraphParser.Parser.ParseFragment` | core/graph/parse.go:187-240 | A definition registers the fields of its selection under its name |
| `GraphParser.Parser.CollectFragments` | core/graph/parse.go:142-165 | The document loop collects the fragments |
| `GraphParser.Stack.Push` | core/graph/stack.go:40-47 | A push overwrites a popped slot or grows the slice |
| `GraphParser.Stack.Pop` | core/graph/stack.go:30-37 | A pop takes the top off and keeps the slot |
| `GraphLexer.Lexer.Run` | core/graph/lex.go:305-364 | The state functions with start and position find the tokens of the text, or fail, on every text whose letters and digits outside strings and comments are ASCII |
| `GraphLexer.Lexer.LexString` | core/graph/lex.go:396-425 | A string ends at the first quote of its kind that no backslash stands directly in front of; unclosed it ends the text |
| `GraphLexer.Lexer.LexNumber` | core/graph/lex.go:430-454 | Sign, digits, fraction and an imaginary mark, refused when a name follows at once |
| `GraphLexer.Lexer.LexName` | core/graph/lex.go:366-393 | An ASCII name, unless it runs to the end of the text |
| `LexedTokens.LexPrintable` | core/graph/lex.go:305-454 | Every name, number, variable and boolean the lexer finds is read back from its text as the same token, and the end comes last |
| `LexicalGrammar.TextIsRead` | core/graph/lex.go:305-454 | A text of names, numbers, variables, strings, punctuation, spreads, comments, blanks and commas, none continued by what follows, is read as exactly their tokens and the end; "on", "true" and "false" in any case |
| `LexicalGrammar.NumeralRefused` | core/graph/lex.go:430-454 | A number with a name directly behind it is refused |
| `LexicalGrammar.OtherByteRefused` | core/graph/lex.go:305-364 | A byte that starts none of these is refused |
| `StringValue.UnescapeValue` | core/graph/lex.go:189-227 | The append loop resolves escapes |
| `Escapes.LetterEscape` | core/graph/lex.go:200-212 | The byte that each letter behind a backslash stands for, one by one |
| `Escapes.CodePointEscape` | core/graph/lex.go:213-221 | A backslash, u and four hexadecimal digits in either case stand for the bytes of the code point with that number, a surrogate for those of U+FFFD |
| `Escapes.ShortCodePointKept` | core/graph/lex.go:213-221 | Without four such digits it is kept as it is |
| `Escapes.OtherKept` | core/graph/lex.go:222-224 | Any other letter is kept with its backslash |
| `StringValue.PrintedUnescapes` | core/graph/lex.go:189-227 | Unescaping the printed value gives the value back, and no backslash ends it, exactly when no backslash of it begins an escape |
| `StringValue.CloseIsFirst` | core/graph/lex.go:396-425 | The closing quote is the first quote of its kind with no backslash directly in front; there is none exactly when the scanner finds none |
| `StringValue.CloseFound` | core/graph/lex.go:396-425 | The scanner stops at the closing quote of a printed value unless the value ends in a backslash |
| `QueryText.LiteralSurvives` | core/dbjoin/dbjoin.go:245-248 | A printed string literal is read back as its value exactly for those values |
| `QueryText.NewlineChanged` | core/dbjoin/dbjoin.go:245-248 | A value that is not: a backslash and an n, which the parser reads from a literal with two backslashes, come back as a newline |
| `QueryTree.RereadTreesSame` | core/dbjoin/dbjoin.go:239-280 | Trees none of whose strings ends in a backslash are read back as they are exactly if all their strings survive |
| `QueryTree.ParsesTrees` | core/graph/parse.go:333-414 | Printed trees are parsed to their array, below whatever is open |
| `QueryTree.ReadsTrees` | core/dbjoin/dbjoin.go:191-237 | The lexer finds exactly the tokens of a printed selection |
| `FieldTrees.RootsOfFlat` | core/graph/parse.go:382-414 | Reading the trees off the array of a list of trees gives the list |
| `FieldTrees.FlatOfTrees` | core/graph/parse.go:382-414 | Every pre-order forest, its field types forgotten, is the array of the trees read off it |
| `QueryBuild.MarkDescendants` | core/dbjoin/dbjoin.go:182-189 | The recursive marking adds exactly the descendants |
| `QueryBuild.WriteNode` | core/dbjoin/dbjoin.go:239-280 | The recursive writer appends the text of the value |
| `QueryBuild.WriteFields` | core/dbjoin/dbjoin.go:191-237 | For any set of kept fields the recursive writer appends the text of the kept children's trees, without what is not kept below them |
| `QueryBuild.PrunedIsTree` | core/dbjoin/dbjoin.go:222-236 | Where everything below a kept field is kept, nothing is missing from its tree |
| `QueryRoundTrip.CollectKept` | core/dbjoin/dbjoin.go:139-145 | The kept ids are exactly the allowed roots and everything below them |
| `ParsedFields.DocumentClean` | core/graph/parse.go:124-185 | What a text is parsed to can be printed: names are names, numbers numbers, and arguments fewer than 25 |
| `QueryRoundTrip.BuildDatabaseQuery` | core/dbjoin/dbjoin.go:128-180 | Fails exactly when the raw query does not parse; otherwise the text is the head of its operation and the trees of the allowed roots |
| `QueryRoundTrip.TextRoundTrip` | core/dbjoin/dbjoin.go:128-237 | For every query text: unless a kept string ends in a backslash, the rebuilt text parses to the operation of the same kind and name with exactly the allowed roots' trees, renumbered in order, without directives, field types of inline fragments and variable definitions, their strings as they are read back; it is refused exactly when no root is allowed, the fields are over the limit, or a name that is left is the word "fragment"; and the very trees come back exactly if all kept strings survive |
| `QueryRoundTrip.RebuiltParses` | core/dbjoin/dbjoin.go:147-237 | The same for any list of trees under any operation, where names and numbers are read as such |
| `QueryRoundTrip.PrintedIs` | core/dbjoin/dbjoin.go:191-237 | What is printed for the allowed roots are their trees without directives |
| `QueryRoundTrip.WholeQueryReturns` | core/dbjoin/dbjoin.go:128-237 | Keeping every root of a query without directives, inline fragments and strings that end in a backslash gives the very same operation back, but for its variables, exactly when it is not refused and all its strings survive |
| `SelectWorklist.PackDecodes` | graphql/qcode.go:188-189 | Field id and select id come back from their common entry when the field id has 16 bits |
| `SelectWorklist.PackDecodesOnlySmall` | graphql/qcode.go:188-189 | And the field id comes back only then |
| `SelectWorklist.QCode.CompileQuery` | graphql/qcode.go:145-307 | Success exactly when no reached field is refused and the selects fit the limit; then one select per reached composite field, ids are positions, parents in front, children lists and roots inverse to parents |
| `SelectWorklist.QCode.Round` | graphql/qcode.go:187-297 | One round skips a keyword or makes one select and pushes its composite children |
| `SelectWorklist.QCode.CompileFields` | graphql/fields.go:105-145 | Exactly the children with a selection of their own are pushed, with the packed ids |
| `SelectWorklist.QCode.AddRelInfo` | graphql/qcode.go:393-399 | The select is noted with its parent, or with the roots |
| `SelectRoutes.ReachedByRoute` | graphql/fields.go:105-145 | A field is reached exactly if a route leads to it from a root: over composite fields, no keywords, whose parents are tables or passed through |
| `SelectRoutes.RoutesFit` | graphql/qcode.go:176-194 | The selects fit exactly if there is one and there are at most 100, or 99 when the first root is a keyword |
| `SelectWorklist.KeywordInFront` | graphql/qcode.go:183-194 | A query with exactly as many selects as allowed does not fit when its first root is a keyword, and fits when the keyword is the last root |
| `SelectWorklist.SelectKeeps` | graphql/qcode.go:187-297 | A round that makes a select keeps the worklist's invariant |
| `MutationKeys.ObjectIsRow` | graphql/mutate.go:854-895 | A nested object is one row of the relation's table that is not the parent's; an update connects it along a one-to-many edge |
| `MutationKeys.ListIsRows` | graphql/mutate.go:840-895 | A list under an insert is one row per element with ids of their own, along the one-to-many edge; a one-to-one edge is turned around and any other refused |
| `MutationKeys.BoundListIsRow` | graphql/mutate.go:944-1015 | A list in a variable is one row with every key of its elements, or with the table's columns when it is empty |
| `MutationKeys.ListUnderUpdate` | graphql/mutate.go:850-895 | Under an update a list is connected along a one-to-many edge and refused along any other |
| `MutationKeys.ConnectIsLookup` | graphql/mutate.go:821-832 | The object stored last under "connect" is the filter of a lookup in the other table |
| `MutationKeys.ColumnTakesValue` | graphql/mutate.go:770-787 | Under a column's name an object or a list belongs to a document column, a list to an array column; others refuse it |
| `MutationKeys.KeywordIsLookup` | graphql/mutate.go:38-48 | The keywords of inserts and updates, one by one, and no others |
| `MutationKeys.SideDecides` | graphql/mutate.go:915-939 | The side of a self-reference: child is one-to-one, parent one-to-many with the sides swapped, which an insert refuses; the default is the child under an insert and the parent under an update |
| `MutationKeys.ExpansionPushesAll` | graphql/mutate.go:686-707 | An expansion pushes the item and all its nested items, each once |
| `MutationKeys.InsertTurns` | graphql/mutate.go:686-707 | Under an insert lookups come off the stack first, then the item, then one-to-one children, then one-to-many ones |
| `MutationPlanner.UnionOf` | graphql/mutate.go:1003-1015 | The nested loops build that union |
| `MutationPlanner.ProcessList` | graphql/mutate.go:944-998 | One item for a list that comes as JSON, with the union of its rows or, when it is empty, the table's own columns; one item per element inline |
| `MutationPlanner.Planner.ProcessNestedMutations` | graphql/mutate.go:727-942 | The loop over the payload plans the nested items, with ids handed out one after the other |
| `MutationPlanner.Planner.ProcessRelation` | graphql/mutate.go:809-895 | A key that names a relation becomes a lookup, an item or the items of a list, oriented by the relation |
| `MutationPlanner.Planner.AddTablesAndColumns` | graphql/mutate.go:1034-1146 | The dependencies of one item, which `EdgeRecordedOnce` and its neighbours state over finished plans |
| `MutationPlanner.Planner.NewMutate` | graphql/mutate.go:657-723 | An item is expanded on the stack in the order in which it must come off |
| `MutationPlanner.Planner.Round` | graphql/mutate.go:165-184 | Emits or expands the top of the stack |
| `MutationPlanner.Planner.Drain` | graphql/mutate.go:165-184 | The stack loop ends; its state is the one after some number of rounds, with an empty stack and a finished plan, or a round fails |
| `MutationRun.EmittedOnce` | graphql/mutate.go:165-184 | In a run that empties the stack, every item that is on the stack or emitted after any number of rounds is emitted exactly once in the end, and what was emitted stays in front |
| `MutationRun.AfterKeeps` | graphql/mutate.go:165-184 | After any number of rounds the plan's invariant holds, no planned id is forgotten and what is emitted stays |
| `MutationRun.EmittedDistinct` | graphql/mutate.go:165-184 | Nothing else is emitted twice: the finished plan has as many items as ids |
| `MutationPlanner.Planner.CompileMutation` | graphql/mutate.go:62-217 | The loop ends; the finished plan is the state after that many rounds from the items of all roots, so `EmittedOnce` holds of it; every write depends on exactly the items it is linked to by place and relation; ids become positions |
| `MutationPlanner.Planner.Reindex` | graphql/mutate.go:192-197 | Ids and parents are replaced by positions |
| `MutationPlan.NestedItemsFit` | graphql/mutate.go:727-895 | Nested items have fresh ascending ids and together less payload than their parent |
| `MutationPlan.ExpandBlock` | graphql/mutate.go:657-723 | An expansion takes the item's place with its lookups in front, its writes behind it, and less weight |
| `MutationPlan.StepKeepsInv` | graphql/mutate.go:165-184 | Every round keeps the invariant and takes weight off, so the loop ends |
| `MutationDeps.EdgeRecordedOnce` | graphql/mutate.go:1043-1109 | In every finished insert plan a nested write depends on its parent exactly along a one-to-one relation or a one-to-many one that leads to its own table only, and its parent depends on it exactly along a one-to-many one that leads to the parent's table |
| `MutationDeps.LookupReadOnce` | graphql/mutate.go:1064-1079 | Every lookup is a dependency of exactly one write: the next one, in whose payload it was nested |
| `MutationDeps.NothingElseRecorded` | graphql/mutate.go:1043-1109 | A write depends on nothing but its parent, its nested writes and its lookups |
| `MutationDeps.AfterKeepsLinks` | graphql/mutate.go:165-184 | Every round keeps that, whatever is still on the stack |
| `MutationOrder.NoCycles` | graphql/mutate.go:1043-1109 | Following dependencies never leads back to where one started |
| `MutationOrder.DependencyRanksLower` | graphql/mutate.go:1043-1109 | Whatever an item depends on ranks strictly lower |
| `MutationOrder.DependenciesPlanned` | graphql/mutate.go:1043-1109 | Every dependency is on an item of the plan |
| `MutationOrder.ReadsComeFirst` | graphql/mutate.go:686-707 | An item comes after what it depends on, except exactly for children on the parent's side of a one-to-many relation, which come later |
| `MutationOrder.ParentFirst` | graphql/mutate.go:686-707 | A write comes after its parent |
| `MutationOrder.ReindexedValid` | graphql/mutate.go:192-197 | After re-indexing each id is its position and each parent a valid position of a write, in front of every child that is written |
| `MutationOrder.InsertPlansAll` | graphql/mutate.go:686-707 | Under an insert every lookup and every child along a one-to-one or one-to-many relation is pushed, once |
| `MutationOrder.RecursiveNotPlanned` | graphql/mutate.go:686-707 | A nested self-reference under an insert is not pushed |
| `WriteNames.WriteNamed` | graphql/mutate.go:236-245 | A write is called like its table, and with its decimal position behind an underscore exactly if another write goes to the table |
| `WriteNames.GroupNamed` | graphql/mutate.go:441-446 | A root's writes to a table are read back under the table's name, with the root's decimal id behind two underscores exactly if another root writes there |
| `MutationNames.NamesMeet` | core/dialect/dialect.go:242-248 | Two writes have the same name exactly when one table is called like the other's numbered write |
| `MutationNames.WritesNamedApart` | core/dialect/dialect.go:242-248 | So without such table names all writes are named apart |
| `MutationNames.NamesCanMeet` | core/dialect/dialect.go:242-248 | With one, two writes do meet |
| `PlanNames.PlanNamedApart` | graphql/mutate.go:189-222 | In every finished, re-indexed plan: two items have the same name exactly when a table of one is called like the other's numbered write, and without such names all items and the result sets of different groups are named apart |
| `MutationNames.GroupsPartition` | graphql/mutate.go:199-208 | Every write is in exactly one group |
| `MutationNames.GroupsNamedApart` | graphql/mutate.go:441-446 | Different groups, two roots on one table among them, have result sets of different names |
| `MutationNames.UnionsApartFromWrites` | core/dialect/dialect.go:250-284 | A result set that gathers writes is not called like a write |
| `MutationNames.Collect` | graphql/mutate.go:189-208 | The loop over the writes gathers exactly the groups, each with its writes in order, and the roots of each table |
| `MutationNames.NameUnions` | graphql/mutate.go:219-222 | The loop over the groups stores every group under its own name, in whatever order they come |
| `MutationNames.MarkMulti` | graphql/mutate.go:236-245 | A write gets a name of its own exactly when its group has others or its table other roots |

## Left out

- Parser.ParseFragmentFields: an inline fragment at the top of a selection indexes the field array with -1 and ends the program; the model refuses the query instead.
- ParseOp: on an endless head the program never returns; the function of the document's tokens says that no operation comes back. The position-moving form of the operation head is not modelled, only the function of its tokens and the rounds of its loop.
- TextRoundTrip: says nothing of what is parsed when a kept string ends in a backslash, which then escapes its own closing quote and runs on into the text behind it.
- WholeQueryReturns: leaves out the same strings.
- RebuiltParses: requires names and numbers that are read as such, and fewer than 25 arguments per field, which `DocumentClean` shows of every parsed text; and the same strings are left out.
- WriteNode: a value is never missing in a parsed query, so the branch that writes "null" for a missing one is not modelled.
- TextIsRead: leaves out strings with a backslash, for which `CloseIsFirst` and the rows of `Escapes` say where they end and what they stand for, and the bytes that are passed over after a single dot or a "|", which `Lexer.Run` joins to the next token.
- OrMeans: requires one key per element, and so does `NotMeans` of its one condition, for the reason given by `OrSplitsElements` and `NotReadsLast`.
- Lexer.Run: names are ASCII; letters and digits beyond it count as unknown bytes, and line numbers are not kept.
- Arguments in `json` form, where keys may be string literals, and the maximum nesting of values are not part of this model.
- The rest of a select beyond its id, parent, field and children (columns, arguments, relations, limits) is not part of the model; whether a field's select is refused, remote or passed through is a parameter.
- QCode.CompileQuery: takes the schema's verdict on a field as a function of the field, and requires a forest whose keywords are roots, as the parser returns it, with at most 65536 fields.
- Planner.CompileMutation: asks an abstract schema for relations, columns and filters; column values, bound columns, paths, variables' names and the conflict clause are not modelled, and a key's name is taken as already converted.
- Planner.Reindex: does not model the renumbering of dependencies, which edits a map while ranging over it; dependencies are stated on the ids before renumbering.
- NoCycles: holds for the ids before renumbering, for the same reason.
- RecursiveNotPlanned: states that nested self-references under an insert are dropped after their ids were handed out; what the program means by them is not modelled.
- GenericRenderMutationPostamble: only the names it writes are modelled, not the SQL.
- KeysetPagination: is stated for order lists over plain columns of the table whose values are present and whose predicate shares no list; on shared lists there is no predicate to walk by, and rows with nulls pass as `SeekMeaning` says. Order columns from joined tables, aliases and aggregates are not modelled.
- SeekIsLexicographic: columns hold integers or null; every finite column domain embeds into the integers in order.
- AddSeekPredicate: on shared lists, where the program's expression contains itself, the model leaves the filter alone and says so; what rendering such an expression does is not modelled. How slices grow is a parameter.
- CompileExpNode: the parse tree is a value, so its in-place rewriting while a column is distributed over a list is not captured; related tables, JSON paths, geometry, and the test for the user id are not modelled.
- Get: the hash lookup of keys is an exact comparison.
- GetPrinted: leaves out lists that the scan enters and that hold a string by itself, which is read as a key (`StrayStringMisread`).
- FilterPrintedObject: requires strings without raw newlines and tabs, which JSON wants escaped; the filter takes them out there too. `FilterPrintedList` requires a list of objects.
- SplitQuery: a script is a sequence of Unicode characters; bytes that are no valid encoding are not modelled.
- ExecuteScript: preparing, running and retrying statements is not modelled.
- InferViewPKs: entries of the column map are records of schema, table, name and key flags.
- EachCellCompiledOnce: time is an abstract monotone clock, and the compiler's answer an arbitrary outcome.
- MergeRootResults: results are absent, malformed or objects with raw member values; JSON encoding is not modelled.
- The database adapters, the web services, introspection queries, transactions, tracing and the SQL renderers are not part of this model.
